/**
 The search for the timing register of an I2C peripheral: first the data setup and hold delays for
 every prescaler, then the low and high counts of the clock. The program computes in unsigned
 32-bit arithmetic, in which some loop bounds wrap around.
 */
module I2cTiming {
  import opened Wrappers

  // ---------------------------------------------------------------------------------------
  // Unsigned 32-bit arithmetic

  const U32 := 0x1_0000_0000

  function Wrap(x: int): (r: nat)
    ensures r < U32
    ensures 0 <= x < U32 ==> r == x
    ensures -U32 <= x < 0 ==> r == x + U32
  {
    x % U32
  }

  function Max(a: int, b: int): int {
    if a < b then b else a
  }

  function Min(a: int, b: int): int {
    if b < a then b else a
  }

  // ---------------------------------------------------------------------------------------
  // Constants

  const NANOSECONDS := 1_000_000_000
  const ANALOG_FILTER_DELAY_MIN := 50
  const ANALOG_FILTER_DELAY_MAX := 90
  const PRESC_MAX := 16
  const SCLDEL_MAX := 16
  const SDADEL_MAX := 16
  const SCLL_MAX := 256
  const SCLH_MAX := 256

  // Frequencies in Hz, times in ns.
  datatype Characteristic = Characteristic(
    freq: nat, freqMin: nat, freqMax: nat,
    hddatMin: nat, vddatMax: nat, sudatMin: nat, lsclMin: nat, hsclMin: nat,
    trise: nat, tfall: nat, dnf: nat)

  // Standard mode, fast mode and fast mode plus.
  const CHARACTERISTICS := [
    Characteristic(100000, 80000, 120000, 0, 3450, 250, 4700, 4000, 0, 0, 0),
    Characteristic(400000, 320000, 480000, 0, 900, 100, 1300, 600, 0, 0, 0),
    Characteristic(1000000, 800000, 1200000, 0, 450, 50, 500, 260, 0, 0, 0)]

  predicate InTable(c: Characteristic) {
    c in CHARACTERISTICS
  }

  datatype Timing = Timing(presc: nat, tscldel: nat, tsdadel: nat, sclh: nat, scll: nat)

  // Source clocks for which no product overflows and the clock period does not round to zero.
  predicate Clock(hz: nat) {
    2_000 <= hz <= 2_000_000_000
  }

  // The period of the source clock, in ns.
  function ClockPeriod(hz: nat): (ti: nat)
    requires Clock(hz)
    ensures 1 <= ti <= 500_000
  {
    Divides(NANOSECONDS + hz / 2, hz);
    (NANOSECONDS + hz / 2) / hz
  }

  lemma Divides(a: nat, hz: nat)
    requires Clock(hz) && a == NANOSECONDS + hz / 2
    ensures 1 <= a / hz <= 500_000
  {
    QuotientAtLeast(a, hz, 1);
    QuotientAtLeast(a, hz, 500_001);
    assert 500_001 * hz > a;
  }

  // ---------------------------------------------------------------------------------------
  // Products and quotients

  lemma MulMonotone(a: nat, b: nat, d: nat)
    requires a <= b
    ensures a * d <= b * d
  {
  }

  lemma OneMore(a: nat, d: nat)
    ensures (a + 1) * d == a * d + d
  {
  }

  lemma QuotientAtLeast(a: nat, d: nat, k: nat)
    requires d > 0
    ensures k <= a / d <==> k * d <= a
  {
    var q, r := a / d, a % d;
    assert a == q * d + r;
    if k <= q {
      MulMonotone(k, q, d);
    } else {
      MulMonotone(q + 1, k, d);
    }
  }

  lemma QuotientAtMost(a: nat, d: nat)
    requires d > 0
    ensures 0 <= a / d <= a
  {
    QuotientAtLeast(a, d, a + 1);
    MulMonotone(1, d, a + 1);
  }

  // ---------------------------------------------------------------------------------------
  // Data setup and hold delays

  function SdaDelMin(c: Characteristic, ti: nat): nat {
    Max(c.tfall + c.hddatMin - ANALOG_FILTER_DELAY_MIN - (c.dnf + 3) * ti, 0)
  }

  function SdaDelMax(c: Characteristic, ti: nat): nat {
    Max(c.vddatMax - c.trise - ANALOG_FILTER_DELAY_MAX - (c.dnf + 4) * ti, 0)
  }

  function SclDelTime(ti: nat, presc: nat, scldel: nat): nat {
    (scldel + 1) * (presc + 1) * ti
  }

  function SdaDelTime(ti: nat, presc: nat, sdadel: nat): nat {
    sdadel * (presc + 1) * ti
  }

  // The delays are in range and meet the setup and hold times.
  predicate MeetsDelays(c: Characteristic, ti: nat, presc: nat, scldel: nat, sdadel: nat) {
    && presc < PRESC_MAX && scldel < SCLDEL_MAX && sdadel < SDADEL_MAX
    && c.trise + c.sudatMin <= SclDelTime(ti, presc, scldel)
    && SdaDelMin(c, ti) <= SdaDelTime(ti, presc, sdadel) <= SdaDelMax(c, ti)
  }

  // (scldel, sdadel) comes before (scldel', sdadel') in the order of the search.
  predicate DelaysBefore(scldel: nat, sdadel: nat, scldel': nat, sdadel': nat) {
    scldel < scldel' || (scldel == scldel' && sdadel < sdadel')
  }

  /** t has the lexicographically least delays that its prescaler allows. */
  ghost predicate LeastDelays(c: Characteristic, ti: nat, t: Timing) {
    && t.sclh == t.scll == 0
    && MeetsDelays(c, ti, t.presc, t.tscldel, t.tsdadel)
    && forall scldel, sdadel :: DelaysBefore(scldel, sdadel, t.tscldel, t.tsdadel) ==> !MeetsDelays(c, ti, t.presc, scldel, sdadel)
  }

  ghost predicate FeasiblePresc(c: Characteristic, ti: nat, presc: nat) {
    exists scldel, sdadel :: MeetsDelays(c, ti, presc, scldel, sdadel)
  }

  /** The timings of the feasible prescalers below bound, in increasing order. */
  ghost predicate Enumerates(c: Characteristic, ti: nat, ts: seq<Timing>, bound: nat) {
    && (forall i :: 0 <= i < |ts| ==> ts[i].presc < bound && LeastDelays(c, ti, ts[i]))
    && (forall i, j :: 0 <= i < j < |ts| ==> ts[i].presc < ts[j].presc)
    && (forall presc :: 0 <= presc < bound && FeasiblePresc(c, ti, presc) ==> exists i :: 0 <= i < |ts| && ts[i].presc == presc)
  }

  // The products of the search do not wrap around.
  lemma DelayProductsFit(ti: nat, presc: nat, n: nat)
    requires ti <= 500_000 && presc < PRESC_MAX && n <= 16
    ensures Wrap(Wrap(n * (presc + 1)) * ti) == n * (presc + 1) * ti
  {
    hide Wrap;
    var m := n * (presc + 1);
    MulMonotone(n, 16, presc + 1);
    MulMonotone(0, n, presc + 1);
    assert 0 <= m <= 256;
    MulMonotone(m, 256, ti);
    MulMonotone(0, m, ti);
    assert 0 <= m * ti < U32;
  }

  // The delays, as they are computed.
  function ComputedSclDel(ti: nat, presc: nat, scldel: nat): nat {
    Wrap(Wrap((scldel + 1) * (presc + 1)) * ti)
  }

  function ComputedSdaDel(ti: nat, presc: nat, sdadel: nat): nat {
    Wrap(Wrap(sdadel * (presc + 1)) * ti)
  }

  lemma DelayTimes(ti: nat, presc: nat, scldel: nat, sdadel: nat)
    requires ti <= 500_000 && presc < PRESC_MAX && scldel < 16 && sdadel < 16
    ensures ComputedSclDel(ti, presc, scldel) == SclDelTime(ti, presc, scldel)
    ensures ComputedSdaDel(ti, presc, sdadel) == SdaDelTime(ti, presc, sdadel)
  {
    DelayProductsFit(ti, presc, scldel + 1);
    DelayProductsFit(ti, presc, sdadel);
  }

  method SdaDelLimits(c: Characteristic, ti2cclk: nat) returns (tsdadelMin: int, tsdadelMax: int)
    ensures tsdadelMin == SdaDelMin(c, ti2cclk) && tsdadelMax == SdaDelMax(c, ti2cclk)
  {
    tsdadelMin := c.tfall + c.hddatMin - ANALOG_FILTER_DELAY_MIN - (c.dnf + 3) * ti2cclk;
    tsdadelMax := c.vddatMax - c.trise - ANALOG_FILTER_DELAY_MAX - (c.dnf + 4) * ti2cclk;
    if tsdadelMin <= 0 {
      tsdadelMin := 0;
    }
    if tsdadelMax <= 0 {
      tsdadelMax := 0;
    }
  }

  /**
   The first n feasible prescalers with their least delays, all of them when there are fewer.
   Entries beyond the returned ones, which the program leaves zero, are not part of the result.
   */
  method ComputePrescScldelSdadel(n: nat, hz: nat, speedIdx: nat) returns (result: seq<Timing>)
    requires n > 0 && Clock(hz) && speedIdx < 3
    ensures |result| <= n
    ensures var c, ti := CHARACTERISTICS[speedIdx], ClockPeriod(hz);
            Enumerates(c, ti, result, if |result| == n then result[n - 1].presc + 1 else PRESC_MAX)
  {
    var c, ti2cclk := CHARACTERISTICS[speedIdx], ClockPeriod(hz);
    hide Found, Enumerates, MeetsDelays, ClockPeriod, SdaDelMin, SdaDelMax;
    hide SclDelTime, SdaDelTime, ComputedSclDel, ComputedSdaDel;
    var tsdadelMin, tsdadelMax := SdaDelLimits(c, ti2cclk);
    var tscldelMin := c.trise + c.sudatMin;
    var prevPresc := PRESC_MAX;
    result := [];
    NothingEnumerated(c, ti2cclk);
    var presc := 0;
    while presc < PRESC_MAX
      invariant 0 <= presc <= PRESC_MAX && |result| < n
      invariant Enumerates(c, ti2cclk, result, presc)
      invariant prevPresc == LastPresc(result)
    {
      ghost var before := result;
      FoundNothing(c, ti2cclk, before, presc);
      var scldel := 0;
      while scldel < SCLDEL_MAX
        invariant 0 <= scldel <= SCLDEL_MAX && |result| < n
        invariant Found(c, ti2cclk, before, result, presc, scldel, 0)
        invariant prevPresc == LastPresc(result)
      {
        DelayTimes(ti2cclk, presc, scldel, 0);
        var tscldel := ComputedSclDel(ti2cclk, presc, scldel);
        if tscldel >= tscldelMin {
          var sdadel := 0;
          while sdadel < SDADEL_MAX
            invariant 0 <= sdadel <= SDADEL_MAX && |result| < n
            invariant Found(c, ti2cclk, before, result, presc, scldel, sdadel)
            invariant prevPresc == LastPresc(result)
          {
            DelayTimes(ti2cclk, presc, scldel, sdadel);
            var tsdadel := ComputedSdaDel(ti2cclk, presc, sdadel);
            DelaysMet(c, ti2cclk, presc, scldel, sdadel);
            FoundNext(c, ti2cclk, before, result, presc, scldel, sdadel);
            if tsdadel >= tsdadelMin && tsdadel <= tsdadelMax {
              if presc != prevPresc {
                result := result + [Timing(presc, scldel, sdadel, 0, 0)];
                prevPresc := presc;
                if |result| >= n {
                  FoundEnumerates(c, ti2cclk, before, result, presc, scldel, sdadel + 1);
                  return;
                }
              }
            }
            sdadel := sdadel + 1;
          }
        }
        FoundRow(c, ti2cclk, before, result, presc, scldel, if tscldel >= tscldelMin then SDADEL_MAX else 0);
        scldel := scldel + 1;
      }
      FoundEnumerates(c, ti2cclk, before, result, presc, SCLDEL_MAX, 0);
      presc := presc + 1;
    }
  }

  function LastPresc(ts: seq<Timing>): nat {
    if ts == [] then PRESC_MAX else ts[|ts| - 1].presc
  }

  // The search for prescaler presc has come to (scldel, sdadel): it has found the least delays, or
  // there are none so far.
  ghost predicate Found(c: Characteristic, ti: nat, before: seq<Timing>, result: seq<Timing>, presc: nat, scldel: nat, sdadel: nat) {
    && Enumerates(c, ti, before, presc)
    && if |result| == |before| then
         && result == before
         && forall a, b :: DelaysBefore(a, b, scldel, sdadel) ==> !MeetsDelays(c, ti, presc, a, b)
       else
         && |result| == |before| + 1 && result[..|before|] == before
         && result[|before|].presc == presc && LeastDelays(c, ti, result[|before|])
  }

  lemma NothingEnumerated(c: Characteristic, ti: nat)
    ensures Enumerates(c, ti, [], 0)
  {
  }

  lemma FoundNothing(c: Characteristic, ti: nat, before: seq<Timing>, presc: nat)
    requires Enumerates(c, ti, before, presc)
    ensures Found(c, ti, before, before, presc, 0, 0)
  {
  }

  lemma DelaysMet(c: Characteristic, ti: nat, presc: nat, scldel: nat, sdadel: nat)
    requires presc < PRESC_MAX && scldel < SCLDEL_MAX && sdadel < SDADEL_MAX
    ensures MeetsDelays(c, ti, presc, scldel, sdadel) <==>
            && c.trise + c.sudatMin <= SclDelTime(ti, presc, scldel)
            && SdaDelMin(c, ti) <= SdaDelTime(ti, presc, sdadel) <= SdaDelMax(c, ti)
  {
  }

  // What the search has found after the delays (scldel, sdadel).
  lemma FoundNext(c: Characteristic, ti: nat, before: seq<Timing>, result: seq<Timing>, presc: nat, scldel: nat, sdadel: nat)
    requires presc < PRESC_MAX && Found(c, ti, before, result, presc, scldel, sdadel)
    ensures if MeetsDelays(c, ti, presc, scldel, sdadel) && presc != LastPresc(result) then
              Found(c, ti, before, result + [Timing(presc, scldel, sdadel, 0, 0)], presc, scldel, sdadel + 1)
            else Found(c, ti, before, result, presc, scldel, sdadel + 1)
  {
    if |result| == |before| {
      assert result != [] ==> LastPresc(result) < presc;
      forall a, b | DelaysBefore(a, b, scldel, sdadel + 1) && !MeetsDelays(c, ti, presc, scldel, sdadel)
        ensures !MeetsDelays(c, ti, presc, a, b)
      {
        assert DelaysBefore(a, b, scldel, sdadel) || (a == scldel && b == sdadel);
      }
    }
  }

  // A row in which the setup time is not met, or which has been searched to its end.
  lemma FoundRow(c: Characteristic, ti: nat, before: seq<Timing>, result: seq<Timing>, presc: nat, scldel: nat, sdadel: nat)
    requires Found(c, ti, before, result, presc, scldel, sdadel)
    requires SDADEL_MAX <= sdadel || SclDelTime(ti, presc, scldel) < c.trise + c.sudatMin
    ensures Found(c, ti, before, result, presc, scldel + 1, 0)
  {
    if |result| == |before| {
      forall a, b | DelaysBefore(a, b, scldel + 1, 0)
        ensures !MeetsDelays(c, ti, presc, a, b)
      {
        assert DelaysBefore(a, b, scldel, sdadel) || a == scldel;
      }
    }
  }

  lemma DelaysInRange(c: Characteristic, ti: nat, presc: nat, scldel: nat, sdadel: nat)
    requires MeetsDelays(c, ti, presc, scldel, sdadel)
    ensures scldel < SCLDEL_MAX
  {
  }

  lemma FoundEnumerates(c: Characteristic, ti: nat, before: seq<Timing>, result: seq<Timing>, presc: nat, scldel: nat, sdadel: nat)
    requires Found(c, ti, before, result, presc, scldel, sdadel)
    requires |result| > |before| || SCLDEL_MAX <= scldel
    ensures Enumerates(c, ti, result, presc + 1)
  {
    hide MeetsDelays, LeastDelays;
    forall p | 0 <= p < presc + 1 && FeasiblePresc(c, ti, p)
      ensures exists i :: 0 <= i < |result| && result[i].presc == p
    {
      if p < presc {
        var i :| 0 <= i < |before| && before[i].presc == p;
        assert result[i].presc == p;
      } else {
        var a, b :| MeetsDelays(c, ti, presc, a, b);
        DelaysInRange(c, ti, presc, a, b);
        assert |result| > |before| by {
          assert DelaysBefore(a, b, scldel, sdadel) || |result| > |before|;
        }
        assert result[|before|].presc == p;
      }
    }
  }

  /** The search never chooses a hold delay, and the setup delay it chooses is the shortest that is long enough. */
  lemma LeastDelaysAreShort(c: Characteristic, ti: nat, t: Timing)
    requires InTable(c) && 1 <= ti && LeastDelays(c, ti, t)
    ensures t.tsdadel == 0
    ensures t.tscldel > 0 ==> SclDelTime(ti, t.presc, t.tscldel - 1) < c.sudatMin
  {
    assert SdaDelMin(c, ti) == 0;
    assert SdaDelTime(ti, t.presc, 0) == 0;
    if t.tsdadel > 0 {
      assert DelaysBefore(t.tscldel, 0, t.tscldel, t.tsdadel);
    }
    if t.tscldel > 0 {
      assert DelaysBefore(t.tscldel - 1, 0, t.tscldel, t.tsdadel);
    }
  }

  lemma LeastDelaysAreUnique(c: Characteristic, ti: nat, t: Timing, u: Timing)
    requires LeastDelays(c, ti, t) && LeastDelays(c, ti, u) && t.presc == u.presc
    ensures t == u
  {
    assert DelaysBefore(t.tscldel, t.tsdadel, u.tscldel, u.tsdadel)
        || DelaysBefore(u.tscldel, u.tsdadel, t.tscldel, t.tsdadel)
        || (t.tscldel == u.tscldel && t.tsdadel == u.tsdadel);
  }

  // The prescaler at position i of one enumeration is not left out of another one that agrees so far.
  lemma NotBefore(c: Characteristic, ti: nat, ts: seq<Timing>, us: seq<Timing>, bound: nat, i: nat)
    requires Enumerates(c, ti, ts, bound) && Enumerates(c, ti, us, bound)
    requires i < |ts| && i <= |us| && ts[..i] == us[..i]
    ensures i < |us| && us[i].presc <= ts[i].presc
  {
    assert forall k :: 0 <= k < i ==> us[k] == us[..i][k] == ts[..i][k] == ts[k];
    assert FeasiblePresc(c, ti, ts[i].presc);
    var j :| 0 <= j < |us| && us[j].presc == ts[i].presc;
  }

  /** There is only one enumeration of the feasible prescalers. */
  lemma {:induction false} EnumerationIsUnique(c: Characteristic, ti: nat, ts: seq<Timing>, us: seq<Timing>, bound: nat, i: nat)
    requires Enumerates(c, ti, ts, bound) && Enumerates(c, ti, us, bound)
    requires i <= |ts| && i <= |us| && ts[..i] == us[..i]
    ensures ts == us
    decreases |ts| - i
  {
    hide FeasiblePresc, Enumerates;
    if i < |ts| {
      NotBefore(c, ti, ts, us, bound, i);
      NotBefore(c, ti, us, ts, bound, i);
      SamePrescSameTiming(c, ti, ts, us, bound, i);
      assert ts[..i + 1] == ts[..i] + [ts[i]] && us[..i + 1] == us[..i] + [us[i]];
      EnumerationIsUnique(c, ti, ts, us, bound, i + 1);
    } else if i < |us| {
      NotBefore(c, ti, us, ts, bound, i);
    }
  }

  lemma SamePrescSameTiming(c: Characteristic, ti: nat, ts: seq<Timing>, us: seq<Timing>, bound: nat, i: nat)
    requires Enumerates(c, ti, ts, bound) && Enumerates(c, ti, us, bound)
    requires i < |ts| && i < |us| && ts[i].presc == us[i].presc
    ensures ts[i] == us[i]
  {
    LeastDelaysAreUnique(c, ti, ts[i], us[i]);
  }

  /**
   The delays of an enumerated timing in plain numbers: no hold delay, and the least setup delay, in steps of the divided
   source clock, that is as long as the setup time.
   */
  lemma EnumeratedMeans(c: Characteristic, ti: nat, ts: seq<Timing>, bound: nat, i: nat)
    requires InTable(c) && 1 <= ti && Enumerates(c, ti, ts, bound) && i < |ts|
    ensures var t := ts[i];
            && t.presc < bound && t.presc < 16 && t.tscldel < 16 && t.tsdadel == t.sclh == t.scll == 0
            && c.sudatMin <= (t.tscldel + 1) * (t.presc + 1) * ti
            && (t.tscldel > 0 ==> t.tscldel * (t.presc + 1) * ti < c.sudatMin)
  {
    TableBounds(c);
    LeastDelaysAreShort(c, ti, ts[i]);
  }

  /** A prescaler occurs in the enumeration exactly if it makes the longest setup delay long enough. */
  lemma PrescOccursExactly(c: Characteristic, ti: nat, ts: seq<Timing>, bound: nat, presc: nat)
    requires InTable(c) && 1 <= ti && bound <= PRESC_MAX && presc < bound && Enumerates(c, ti, ts, bound)
    ensures (exists i :: 0 <= i < |ts| && ts[i].presc == presc) <==> c.sudatMin <= 16 * (presc + 1) * ti
  {
    TableBounds(c);
    if c.sudatMin <= 16 * (presc + 1) * ti {
      assert SdaDelMin(c, ti) == 0;
      assert SdaDelTime(ti, presc, 0) == 0;
      assert MeetsDelays(c, ti, presc, 15, 0);
      assert FeasiblePresc(c, ti, presc);
    }
    if i :| 0 <= i < |ts| && ts[i].presc == presc {
      EnumeratedMeans(c, ti, ts, bound, i);
      hide Enumerates;
      ShorterFits(ts[i].tscldel + 1, presc + 1, ti);
    }
  }

  lemma ShorterFits(n: nat, m: nat, ti: nat)
    requires n <= 16
    ensures n * m * ti <= 16 * m * ti
  {
    MulMonotone(n, 16, m);
    MulMonotone(n * m, 16 * m, ti);
  }

  // ---------------------------------------------------------------------------------------
  // The clock: its times as numbers, without wrapping

  // The period of the source clock divided by the prescaler.
  function PrescTime(ti: nat, presc: nat): nat {
    (presc + 1) * ti
  }

  // What the filters and the synchronization add to each half of the clock.
  function EdgeTime(c: Characteristic, ti: nat): nat {
    ANALOG_FILTER_DELAY_MIN + c.dnf * ti + 2 * ti
  }

  function TLow(c: Characteristic, ti: nat, tp: nat, scll: nat): nat {
    EdgeTime(c, ti) + (scll + 1) * tp
  }

  function THigh(c: Characteristic, ti: nat, tp: nat, sclh: nat): nat {
    EdgeTime(c, ti) + (sclh + 1) * tp
  }

  function TScl(c: Characteristic, ti: nat, tp: nat, scll: nat, sclh: nat): nat {
    TLow(c, ti, tp, scll) + THigh(c, ti, tp, sclh) + c.trise + c.tfall
  }

  function ClkMin(c: Characteristic): nat
    requires InTable(c)
  {
    NANOSECONDS / c.freqMax
  }

  function ClkMax(c: Characteristic): nat
    requires InTable(c)
  {
    NANOSECONDS / c.freqMin
  }

  // The ideal clock period.
  function Speed(c: Characteristic): nat
    requires InTable(c)
  {
    (NANOSECONDS + c.freq / 2) / c.freq
  }

  function HighMin(c: Characteristic, ti: nat): nat {
    Max(c.hsclMin, ti)
  }

  function Error(c: Characteristic, ti: nat, tp: nat, scll: nat, sclh: nat): nat
    requires InTable(c)
  {
    var d := TScl(c, ti, tp, scll, sclh) - Speed(c);
    if d < 0 then -d else d
  }

  /** The counts that the search looks at, in terms of the clock they give. */
  predicate Candidate(c: Characteristic, ti: nat, presc: nat, scll: nat, sclh: nat)
    requires InTable(c)
  {
    var tp := PrescTime(ti, presc);
    && 1 <= scll < SCLL_MAX && 2 / (presc + 1) <= scll && sclh < SCLH_MAX
    && EdgeTime(c, ti) <= c.lsclMin < TLow(c, ti, tp, scll)
    && TScl(c, ti, tp, scll, 1) <= ClkMin(c) < TScl(c, ti, tp, scll, sclh + 2) <= ClkMax(c)
    && THigh(c, ti, tp, 0) <= HighMin(c, ti) < THigh(c, ti, tp, sclh + 1)
  }

  /**
   A candidate keeps the low period above its minimum and the clock period, with two counts more, up to
   its maximum. It may be too fast by less than two counts, and its high period may be too short by less
   than one; ClockSafety says when one that is returned is.
   */
  lemma CandidateIsSafe(c: Characteristic, ti: nat, presc: nat, scll: nat, sclh: nat)
    requires InTable(c) && Candidate(c, ti, presc, scll, sclh)
    ensures var tp := PrescTime(ti, presc);
            && c.lsclMin < TLow(c, ti, tp, scll)
            && c.hsclMin < THigh(c, ti, tp, sclh) + tp
            && ClkMin(c) < TScl(c, ti, tp, scll, sclh) + 2 * tp <= ClkMax(c)
  {
    var tp := PrescTime(ti, presc);
    assert (sclh + 3) * tp == (sclh + 1) * tp + 2 * tp;
    assert (sclh + 2) * tp == (sclh + 1) * tp + tp;
  }

  // A choice that is looked at, but not returned: 16 MHz, prescaler 3, a high period of 3956 ns.
  lemma HighCanBeTooShort()
    ensures var c, ti := CHARACTERISTICS[0], ClockPeriod(16_000_000);
            && Candidate(c, ti, 3, 17, 14)
            && THigh(c, ti, PrescTime(ti, 3), 14) == 3956 && c.hsclMin == 4000
  {
    assert ClockPeriod(16_000_000) == 63;
  }

  // One with a period of 9991 ns.
  lemma SixteenMegahertzCandidate()
    ensures ClockPeriod(16_000_000) == 63 && Candidate(CHARACTERISTICS[0], 63, 0, 71, 80)
    ensures TScl(CHARACTERISTICS[0], 63, 63, 71, 80) == 9991
  {
  }

  // ---------------------------------------------------------------------------------------
  // The loop bounds, as they are computed

  function ScllLowerBound(c: Characteristic, ti: nat, presc: nat): nat
    requires PrescTime(ti, presc) > 0
  {
    var dnfDelay := Wrap(c.dnf * ti);
    Max(Wrap(c.lsclMin - Wrap(ANALOG_FILTER_DELAY_MIN + dnfDelay + Wrap(2 * ti))) / PrescTime(ti, presc),
        Max(2 / (presc + 1), 1))
  }

  // The clock period with a high count of zero.
  function ShortestTScl(c: Characteristic, ti: nat, tp: nat, scll: nat): nat {
    var dnfDelay := Wrap(c.dnf * ti);
    Wrap(Wrap(2 * (ANALOG_FILTER_DELAY_MIN + dnfDelay)) + Wrap(4 * ti) + Wrap((scll + 2) * tp) + c.trise + c.tfall)
  }

  function SclhLowerBound(c: Characteristic, ti: nat, tp: nat, scll: nat): nat
    requires InTable(c) && tp > 0
  {
    var dnfDelay := Wrap(c.dnf * ti);
    Max(Wrap(Wrap(ClkMin(c) - ShortestTScl(c, ti, tp, scll)) / tp - 1),
        Wrap(Wrap(Wrap(Wrap(Max(c.hsclMin, ti) - ANALOG_FILTER_DELAY_MIN) - dnfDelay) - Wrap(2 * ti)) / tp - 1))
  }

  function SclhUpperBound(c: Characteristic, ti: nat, tp: nat, scll: nat): nat
    requires InTable(c) && tp > 0
  {
    Min(SCLH_MAX, Wrap(Wrap(ClkMax(c) - ShortestTScl(c, ti, tp, scll)) / tp - 1))
  }

  predicate InLoops(c: Characteristic, ti: nat, presc: nat, scll: nat, sclh: nat)
    requires InTable(c) && PrescTime(ti, presc) > 0
  {
    && ScllLowerBound(c, ti, presc) <= scll < SCLL_MAX
    && SclhLowerBound(c, ti, PrescTime(ti, presc), scll) <= sclh < SclhUpperBound(c, ti, PrescTime(ti, presc), scll)
  }

  lemma TableBounds(c: Characteristic)
    requires InTable(c)
    ensures c.dnf == c.trise == c.tfall == 0
    ensures c.lsclMin <= 4700 && 260 <= c.hsclMin <= 4000
    ensures ClkMin(c) < ClkMax(c) <= 12500 && ClkMax(c) < 2 * Speed(c) && Speed(c) <= 10000
  {
  }

  lemma PrescTimeBounds(ti: nat, presc: nat)
    requires 1 <= ti <= 500_000 && presc < PRESC_MAX
    ensures 1 <= PrescTime(ti, presc) <= 8_000_000
    ensures forall n: nat :: n <= 258 ==> n * PrescTime(ti, presc) <= 258 * 16 * ti
  {
    MulMonotone(1, presc + 1, ti);
    MulMonotone(presc + 1, 16, ti);
    forall n: nat | n <= 258
      ensures n * PrescTime(ti, presc) <= 258 * 16 * ti
    {
      MulMonotone(n, 258, PrescTime(ti, presc));
    }
  }

  // A difference that has wrapped around is too large for a count, however it is divided.
  lemma WrappedIsLarge(x: int, tp: nat)
    requires -2_080_000_000 <= x < 0 && 1 <= tp <= 8_000_000
    ensures Wrap(x) / tp >= 258
  {
    QuotientAtLeast(Wrap(x), tp, 258);
    MulMonotone(tp, 8_000_000, 258);
  }

  // A lower bound of the form x / tp - 1, for numbers in range.
  lemma LowerBoundMeans(x: int, tp: nat, k: nat)
    requires -2_080_000_000 <= x < U32 && 1 <= tp <= 8_000_000 && k < 256
    ensures Wrap(Wrap(x) / tp - 1) <= k <==> tp <= x < (k + 2) * tp
  {
    hide Wrap;
    var q := Wrap(x) / tp;
    QuotientAtMost(Wrap(x), tp);
    if x < 0 {
      WrappedIsLarge(x, tp);
      MulMonotone(0, k + 2, tp);
    } else {
      QuotientAtLeast(x, tp, 1);
      QuotientAtLeast(x, tp, k + 2);
      assert Wrap(q - 1) <= k <==> 1 <= q && q < k + 2;
    }
  }

  lemma UpperBoundMeans(x: int, tp: nat, k: nat)
    requires tp <= x < U32 && 1 <= tp <= 8_000_000
    ensures k < Wrap(Wrap(x) / tp - 1) <==> (k + 2) * tp <= x
  {
    hide Wrap;
    var q := Wrap(x) / tp;
    QuotientAtMost(x, tp);
    QuotientAtLeast(x, tp, 1);
    QuotientAtLeast(x, tp, k + 2);
    assert k < Wrap(q - 1) <==> k + 2 <= q;
  }

  lemma ScllBoundMeans(c: Characteristic, ti: nat, presc: nat, scll: nat)
    requires InTable(c) && 1 <= ti <= 500_000 && presc < PRESC_MAX && scll < SCLL_MAX
    ensures PrescTime(ti, presc) > 0
    ensures ScllLowerBound(c, ti, presc) <= scll <==>
            && 1 <= scll && 2 / (presc + 1) <= scll
            && EdgeTime(c, ti) <= c.lsclMin < TLow(c, ti, PrescTime(ti, presc), scll)
  {
    TableBounds(c);
    PrescTimeBounds(ti, presc);
    var tp := PrescTime(ti, presc);
    var x := c.lsclMin - EdgeTime(c, ti);
    if x < 0 {
      WrappedIsLarge(x, tp);
    } else {
      QuotientAtLeast(x, tp, scll + 1);
    }
  }

  lemma TSclFromShortest(c: Characteristic, ti: nat, tp: nat, scll: nat, sclh: nat)
    requires InTable(c) && ti <= 500_000 && (scll + 2) * tp <= 258 * 16 * ti
    ensures ShortestTScl(c, ti, tp, scll) <= 2_067_000_100
    ensures TScl(c, ti, tp, scll, sclh) == ShortestTScl(c, ti, tp, scll) + sclh * tp
  {
    TableBounds(c);
    hide Wrap, ClkMin, ClkMax, Speed, InTable;
    OneMore(scll + 1, tp);
    OneMore(sclh, tp);
  }

  /**
   The computed loop bounds admit exactly the candidates: a bound that wraps around only ever
   yields an empty loop.
   */
  lemma LoopsAreCandidates(c: Characteristic, ti: nat, presc: nat, scll: nat, sclh: nat)
    requires InTable(c) && 1 <= ti <= 500_000 && presc < PRESC_MAX
    ensures PrescTime(ti, presc) > 0
    ensures InLoops(c, ti, presc, scll, sclh) <==> Candidate(c, ti, presc, scll, sclh)
  {
    hide Wrap, ShortestTScl, ScllLowerBound, EdgeTime, TLow, THigh, TScl, HighMin, ClkMin, ClkMax, Speed;
    var tp := PrescTime(ti, presc);
    TableBounds(c);
    PrescTimeBounds(ti, presc);
    if scll < SCLL_MAX && sclh < SCLH_MAX {
      ScllBoundMeans(c, ti, presc, scll);
      var shortest := ShortestTScl(c, ti, tp, scll);
      TSclFromShortest(c, ti, tp, scll, 1);
      TSclFromShortest(c, ti, tp, scll, sclh + 2);
      LowerBoundMeans(ClkMin(c) - shortest, tp, sclh);
      HighBoundMeans(c, ti, tp, sclh);
      if tp <= ClkMin(c) - shortest {
        UpperBoundMeans(ClkMax(c) - shortest, tp, sclh);
      }
    }
  }

  lemma HighBoundMeans(c: Characteristic, ti: nat, tp: nat, sclh: nat)
    requires InTable(c) && 1 <= ti <= 500_000 && 1 <= tp <= 8_000_000 && sclh < SCLH_MAX
    ensures var dnfDelay := Wrap(c.dnf * ti);
            Wrap(Wrap(Wrap(Wrap(Max(c.hsclMin, ti) - ANALOG_FILTER_DELAY_MIN) - dnfDelay) - Wrap(2 * ti)) / tp - 1) <= sclh
            <==> THigh(c, ti, tp, 0) <= HighMin(c, ti) < THigh(c, ti, tp, sclh + 1)
  {
    TableBounds(c);
    LowerBoundMeans(Max(c.hsclMin, ti) - ANALOG_FILTER_DELAY_MIN - 2 * ti, tp, sclh);
  }

  // ---------------------------------------------------------------------------------------
  // The search for the clock counts

  // A candidate for the clock: the number of a timing, and two counts.
  datatype Choice = Choice(index: nat, scll: nat, sclh: nat)

  // The order in which the search looks at candidates.
  predicate Earlier(a: Choice, b: Choice) {
    || a.index < b.index
    || (a.index == b.index && a.scll < b.scll)
    || (a.index == b.index && a.scll == b.scll && a.sclh < b.sclh)
  }

  predicate Offered(c: Characteristic, ti: nat, ts: seq<Timing>, x: Choice)
    requires InTable(c)
  {
    x.index < |ts| && Candidate(c, ti, ts[x.index].presc, x.scll, x.sclh)
  }

  function ErrorOf(c: Characteristic, ti: nat, ts: seq<Timing>, x: Choice): nat
    requires InTable(c) && x.index < |ts|
  {
    Error(c, ti, PrescTime(ti, ts[x.index].presc), x.scll, x.sclh)
  }

  // best is the first of the candidates before end with the least error, None when there are none.
  ghost predicate Best(c: Characteristic, ti: nat, ts: seq<Timing>, best: Option<Choice>, end: Choice)
    requires InTable(c)
  {
    && (best.Some? ==> Offered(c, ti, ts, best.value) && Earlier(best.value, end))
    && (forall x :: Offered(c, ti, ts, x) && Earlier(x, end) ==>
          && best.Some?
          && ErrorOf(c, ti, ts, best.value) <= ErrorOf(c, ti, ts, x)
          && (Earlier(x, best.value) ==> ErrorOf(c, ti, ts, best.value) < ErrorOf(c, ti, ts, x)))
  }

  lemma EarlierIsTotal(a: Choice, b: Choice)
    ensures a == b || Earlier(a, b) || Earlier(b, a)
  {
  }

  lemma BestIsUnique(c: Characteristic, ti: nat, ts: seq<Timing>, a: Option<Choice>, b: Option<Choice>, end: Choice)
    requires InTable(c) && Best(c, ti, ts, a, end) && Best(c, ti, ts, b, end)
    ensures a == b
  {
    hide Offered, ErrorOf;
    if a.Some? && b.Some? {
      EarlierIsTotal(a.value, b.value);
    }
  }

  // Looking at one more place.
  lemma BestNext(c: Characteristic, ti: nat, ts: seq<Timing>, best: Option<Choice>, here: Choice)
    requires InTable(c) && Best(c, ti, ts, best, here)
    ensures var better := Offered(c, ti, ts, here) && (best.None? || ErrorOf(c, ti, ts, here) < ErrorOf(c, ti, ts, best.value));
            Best(c, ti, ts, if better then Some(here) else best, here.(sclh := here.sclh + 1))
  {
    var end := here.(sclh := here.sclh + 1);
    forall x | Offered(c, ti, ts, x) && Earlier(x, end)
      ensures x == here || Earlier(x, here)
    {
    }
  }

  // The variables of the search, which hold the best choice so far.
  datatype Search = Search(found: bool, ret: nat, retScll: nat, retSclh: nat, prevError: int) {
    function Best(): Option<Choice> {
      if found then Some(Choice(ret, retScll, retSclh)) else None
    }
  }

  // The search has come to end.
  ghost predicate Searched(c: Characteristic, ti: nat, ts: seq<Timing>, v: Search, end: Choice)
    requires InTable(c)
  {
    && Best(c, ti, ts, v.Best(), end)
    && (v.found ==> v.ret < |ts|)
    && v.prevError == if v.found then ErrorOf(c, ti, ts, Choice(v.ret, v.retScll, v.retSclh)) else Speed(c)
  }

  // The prescalers of the timings are in range.
  ghost predicate PrescsFit(ts: seq<Timing>) {
    forall i :: 0 <= i < |ts| ==> ts[i].presc < PRESC_MAX
  }

  // The places that the loop bounds leave out hold no candidates.
  lemma SearchedFromScll(c: Characteristic, ti: nat, ts: seq<Timing>, v: Search, count: nat)
    requires InTable(c) && 1 <= ti <= 500_000 && PrescsFit(ts) && count < |ts|
    requires Searched(c, ti, ts, v, Choice(count, 0, 0))
    ensures PrescTime(ti, ts[count].presc) > 0
    ensures Searched(c, ti, ts, v, Choice(count, ScllLowerBound(c, ti, ts[count].presc), 0))
  {
    PrescTimeBounds(ti, ts[count].presc);
    forall x | Offered(c, ti, ts, x) && Earlier(x, Choice(count, ScllLowerBound(c, ti, ts[count].presc), 0))
      ensures Earlier(x, Choice(count, 0, 0))
    {
      LoopsAreCandidates(c, ti, ts[x.index].presc, x.scll, x.sclh);
    }
  }

  lemma SearchedToNextTiming(c: Characteristic, ti: nat, ts: seq<Timing>, v: Search, count: nat, scll: nat)
    requires InTable(c) && count < |ts| && SCLL_MAX <= scll
    requires Searched(c, ti, ts, v, Choice(count, scll, 0))
    ensures Searched(c, ti, ts, v, Choice(count + 1, 0, 0))
  {
    forall x | Offered(c, ti, ts, x) && Earlier(x, Choice(count + 1, 0, 0))
      ensures Earlier(x, Choice(count, scll, 0))
    {
    }
  }

  lemma SearchedFromSclh(c: Characteristic, ti: nat, ts: seq<Timing>, v: Search, count: nat, scll: nat)
    requires InTable(c) && 1 <= ti <= 500_000 && PrescsFit(ts) && count < |ts|
    requires Searched(c, ti, ts, v, Choice(count, scll, 0))
    ensures PrescTime(ti, ts[count].presc) > 0
    ensures Searched(c, ti, ts, v, Choice(count, scll, SclhLowerBound(c, ti, PrescTime(ti, ts[count].presc), scll)))
  {
    PrescTimeBounds(ti, ts[count].presc);
    forall x | Offered(c, ti, ts, x) && Earlier(x, Choice(count, scll, SclhLowerBound(c, ti, PrescTime(ti, ts[count].presc), scll)))
      ensures Earlier(x, Choice(count, scll, 0))
    {
      LoopsAreCandidates(c, ti, ts[x.index].presc, x.scll, x.sclh);
    }
  }

  lemma SearchedToNextScll(c: Characteristic, ti: nat, ts: seq<Timing>, v: Search, count: nat, scll: nat, sclh: nat)
    requires InTable(c) && 1 <= ti <= 500_000 && PrescsFit(ts) && count < |ts|
    requires PrescTime(ti, ts[count].presc) > 0 ==> SclhUpperBound(c, ti, PrescTime(ti, ts[count].presc), scll) <= sclh
    requires Searched(c, ti, ts, v, Choice(count, scll, sclh))
    ensures Searched(c, ti, ts, v, Choice(count, scll + 1, 0))
  {
    PrescTimeBounds(ti, ts[count].presc);
    forall x | Offered(c, ti, ts, x) && Earlier(x, Choice(count, scll + 1, 0))
      ensures Earlier(x, Choice(count, scll, sclh))
    {
      LoopsAreCandidates(c, ti, ts[x.index].presc, x.scll, x.sclh);
    }
  }

  // One half of the clock, as it is computed.
  function ComputedHalf(c: Characteristic, ti: nat, tp: nat, count: nat): nat {
    Wrap(ANALOG_FILTER_DELAY_MIN + Wrap(c.dnf * ti) + Wrap(2 * ti) + Wrap((count + 1) * tp))
  }

  // For counts in the loops the halves and the period are computed without wrapping, and every
  // deviation is smaller than the ideal period.
  lemma ErrorFits(c: Characteristic, ti: nat, presc: nat, scll: nat, sclh: nat)
    requires InTable(c) && 1 <= ti <= 500_000 && presc < PRESC_MAX
    requires PrescTime(ti, presc) > 0 && InLoops(c, ti, presc, scll, sclh)
    ensures var tp := PrescTime(ti, presc);
            && Candidate(c, ti, presc, scll, sclh)
            && ComputedHalf(c, ti, tp, scll) == TLow(c, ti, tp, scll)
            && ComputedHalf(c, ti, tp, sclh) == THigh(c, ti, tp, sclh)
            && TScl(c, ti, tp, scll, sclh) < 0x8000_0000 && Speed(c) < 0x8000_0000
            && Error(c, ti, tp, scll, sclh) < Speed(c)
  {
    LoopsAreCandidates(c, ti, presc, scll, sclh);
    hide InLoops;
    TableBounds(c);
    PrescTimeBounds(ti, presc);
    CandidateIsSafe(c, ti, presc, scll, sclh);
    var tp := PrescTime(ti, presc);
    assert 0 <= (scll + 1) * tp <= 258 * 16 * ti;
    assert 0 <= (sclh + 1) * tp <= 258 * 16 * ti;
  }

  // The deviation of the clock from its ideal period.
  method ClockError(c: Characteristic, ti: nat, presc: nat, tsclL: nat, scll: nat, sclh: nat) returns (error: int)
    requires InTable(c) && 1 <= ti <= 500_000 && presc < PRESC_MAX
    requires PrescTime(ti, presc) > 0 && InLoops(c, ti, presc, scll, sclh)
    requires tsclL == ComputedHalf(c, ti, PrescTime(ti, presc), scll)
    ensures Candidate(c, ti, presc, scll, sclh)
    ensures error == Error(c, ti, PrescTime(ti, presc), scll, sclh) < Speed(c)
  {
    ErrorFits(c, ti, presc, scll, sclh);
    hide ComputedHalf, TLow, THigh, InLoops, Candidate;
    var tsclH := ComputedHalf(c, ti, PrescTime(ti, presc), sclh);
    var tscl := Wrap(tsclL + tsclH + c.trise + c.tfall);
    error := tscl - Speed(c);
    if error < 0 {
      error := -error;
    }
  }

  function Chosen(ts: seq<Timing>, best: Option<Choice>): Option<Timing>
    requires best.Some? ==> best.value.index < |ts|
  {
    if best.None? then None else Some(ts[best.value.index].(scll := best.value.scll, sclh := best.value.sclh))
  }

  /** result is the first of all candidates that have the least deviation, None when there is none. */
  ghost predicate Optimal(c: Characteristic, ti: nat, ts: seq<Timing>, result: Option<Timing>)
    requires InTable(c)
  {
    exists best :: Best(c, ti, ts, best, Choice(|ts|, 0, 0)) && result == Chosen(ts, best)
  }

  lemma SearchedNext(c: Characteristic, ti: nat, ts: seq<Timing>, v: Search, here: Choice, error: nat)
    requires InTable(c) && Searched(c, ti, ts, v, here)
    requires Offered(c, ti, ts, here) && error == ErrorOf(c, ti, ts, here) < Speed(c)
    ensures Searched(c, ti, ts, if error < v.prevError then Search(true, here.index, here.scll, here.sclh, error) else v,
                     here.(sclh := here.sclh + 1))
  {
    BestNext(c, ti, ts, v.Best(), here);
  }

  // The sclh loop.
  method SearchSclh(c: Characteristic, ti: nat, ts: seq<Timing>, count: nat, scll: nat, v: Search) returns (r: Search)
    requires InTable(c) && 1 <= ti <= 500_000 && PrescsFit(ts) && count < |ts| && PrescTime(ti, ts[count].presc) > 0
    requires ScllLowerBound(c, ti, ts[count].presc) <= scll < SCLL_MAX
    requires Searched(c, ti, ts, v, Choice(count, scll, 0))
    ensures Searched(c, ti, ts, r, Choice(count, scll + 1, 0))
  {
    var presc := ts[count].presc;
    var tpresc := PrescTime(ti, presc);
    SearchedFromSclh(c, ti, ts, v, count, scll);
    hide ScllLowerBound, SclhLowerBound, SclhUpperBound, ComputedHalf, Error, Speed, Candidate, PrescTime, Searched;
    r := v;
    var tsclL := ComputedHalf(c, ti, tpresc, scll);
    var sclh := SclhLowerBound(c, ti, tpresc, scll);
    while sclh < SclhUpperBound(c, ti, tpresc, scll)
      invariant SclhLowerBound(c, ti, tpresc, scll) <= sclh
      invariant Searched(c, ti, ts, r, Choice(count, scll, sclh))
    {
      var error := ClockError(c, ti, presc, tsclL, scll, sclh);
      SearchedNext(c, ti, ts, r, Choice(count, scll, sclh), error);
      if error < r.prevError {
        r := Search(true, count, scll, sclh, error);
      }
      sclh := sclh + 1;
    }
    SearchedToNextScll(c, ti, ts, r, count, scll, sclh);
  }

  // The scll loop.
  method SearchScll(c: Characteristic, ti: nat, ts: seq<Timing>, count: nat, v: Search) returns (r: Search)
    requires InTable(c) && 1 <= ti <= 500_000 && PrescsFit(ts) && count < |ts|
    requires Searched(c, ti, ts, v, Choice(count, 0, 0))
    ensures Searched(c, ti, ts, r, Choice(count + 1, 0, 0))
  {
    PrescTimeBounds(ti, ts[count].presc);
    SearchedFromScll(c, ti, ts, v, count);
    hide ScllLowerBound, Error, Speed, Candidate, PrescTime, Searched;
    r := v;
    var scll := ScllLowerBound(c, ti, ts[count].presc);
    while scll < SCLL_MAX
      invariant ScllLowerBound(c, ti, ts[count].presc) <= scll
      invariant Searched(c, ti, ts, r, Choice(count, scll, 0))
    {
      r := SearchSclh(c, ti, ts, count, scll, r);
      scll := scll + 1;
    }
    SearchedToNextTiming(c, ti, ts, r, count, scll);
  }

  /**
   Of all candidates for the given timings, the first with the least deviation from the ideal clock
   period, and nothing exactly when there is no candidate.
   */
  method ComputeScllSclh(hz: nat, speedIdx: nat, timings: seq<Timing>) returns (result: Option<Timing>)
    requires Clock(hz) && speedIdx < 3
    requires forall i :: 0 <= i < |timings| ==> timings[i].presc < PRESC_MAX
    ensures Optimal(CHARACTERISTICS[speedIdx], ClockPeriod(hz), timings, result)
  {
    var c, ti2cclk := CHARACTERISTICS[speedIdx], ClockPeriod(hz);
    var v := Search(false, 0xFFFF_FFFF, 0, 0, Speed(c));
    NoneYet(c, ti2cclk, timings);
    hide Error, Speed, ClockPeriod, Best;
    var count := 0;
    while count < |timings|
      invariant 0 <= count <= |timings|
      invariant Searched(c, ti2cclk, timings, v, Choice(count, 0, 0))
    {
      v := SearchScll(c, ti2cclk, timings, count, v);
      count := count + 1;
    }
    result := if v.found then Some(timings[v.ret].(scll := v.retScll, sclh := v.retSclh)) else None;
    assert result == Chosen(timings, v.Best());
  }

  lemma NoneYet(c: Characteristic, ti: nat, ts: seq<Timing>)
    requires InTable(c)
    ensures Best(c, ti, ts, None, Choice(0, 0, 0))
  {
  }
}
