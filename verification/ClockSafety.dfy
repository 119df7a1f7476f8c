/**
 What the clock of a chosen I2C timing keeps: whether its high period is long enough, and whether it
 is slow enough. The search looks at choices that miss these bounds, so that they depend on which
 choice comes first and which is closest.
 */
module ClockSafety {
  import opened Wrappers
  import opened I2cTiming
  import opened TimingRegister

  // ---------------------------------------------------------------------------------------
  // Neighbouring choices

  lemma TSclSum(c: Characteristic, ti: nat, tp: nat, scll: nat, sclh: nat)
    requires InTable(c)
    ensures EdgeTime(c, ti) == ANALOG_FILTER_DELAY_MIN + 2 * ti
    ensures TScl(c, ti, tp, scll, sclh) == 2 * EdgeTime(c, ti) + (scll + sclh + 2) * tp
    ensures TLow(c, ti, tp, scll + 1) == TLow(c, ti, tp, scll) + tp
    ensures THigh(c, ti, tp, sclh + 1) == THigh(c, ti, tp, sclh) + tp
    ensures TScl(c, ti, tp, scll, sclh) == TLow(c, ti, tp, scll) + THigh(c, ti, tp, sclh)
    ensures TScl(c, ti, tp, scll, sclh + 1) == TScl(c, ti, tp, scll, sclh) + tp
    ensures TScl(c, ti, tp, scll + 1, sclh) == TScl(c, ti, tp, scll, sclh) + tp
  {
    TableBounds(c);
    assert (scll + 1) * tp + (sclh + 1) * tp == (scll + sclh + 2) * tp;
    OneMore(scll + 1, tp);
    OneMore(sclh + 1, tp);
  }

  // Lowering the low count by one and raising the high count keeps the period.
  lemma SamePeriod(c: Characteristic, ti: nat, presc: nat, scll: nat, sclh: nat)
    requires InTable(c) && 1 <= ti <= 500_000 && presc < PRESC_MAX
    requires PrescTime(ti, presc) > 0 && ScllLowerBound(c, ti, presc) < scll
    requires Candidate(c, ti, presc, scll, sclh) && sclh + 1 < SCLH_MAX
    ensures Candidate(c, ti, presc, scll - 1, sclh + 1)
    ensures TScl(c, ti, PrescTime(ti, presc), scll - 1, sclh + 1) == TScl(c, ti, PrescTime(ti, presc), scll, sclh)
  {
    var tp := PrescTime(ti, presc);
    ScllBoundMeans(c, ti, presc, scll - 1);
    TSclSum(c, ti, tp, scll - 1, 1);
    TSclSum(c, ti, tp, scll - 1, sclh);
    TSclSum(c, ti, tp, scll - 1, sclh + 1);
    TSclSum(c, ti, tp, scll - 1, sclh + 2);
    TSclSum(c, ti, tp, scll, sclh + 1);
    hide TLow, THigh, TScl, EdgeTime, ClkMin, ClkMax, HighMin, PrescTime, ScllLowerBound;
  }

  // Raising the high count by one lengthens the period by one count.
  lemma LongerPeriod(c: Characteristic, ti: nat, presc: nat, scll: nat, sclh: nat)
    requires InTable(c) && Candidate(c, ti, presc, scll, sclh) && sclh + 1 < SCLH_MAX
    requires TScl(c, ti, PrescTime(ti, presc), scll, sclh) + 3 * PrescTime(ti, presc) <= ClkMax(c)
    ensures Candidate(c, ti, presc, scll, sclh + 1)
    ensures TScl(c, ti, PrescTime(ti, presc), scll, sclh + 1)
         == TScl(c, ti, PrescTime(ti, presc), scll, sclh) + PrescTime(ti, presc)
  {
    var tp := PrescTime(ti, presc);
    TSclSum(c, ti, tp, scll, sclh);
    TSclSum(c, ti, tp, scll, sclh + 1);
    TSclSum(c, ti, tp, scll, sclh + 2);
    hide TLow, THigh, TScl, EdgeTime, ClkMin, ClkMax, HighMin, PrescTime;
  }

  // The high period is too short, or the clock is too fast.
  predicate Misses(c: Characteristic, ti: nat, tp: nat, scll: nat, sclh: nat)
    requires InTable(c)
  {
    THigh(c, ti, tp, sclh) < c.hsclMin || TScl(c, ti, tp, scll, sclh) < ClkMin(c)
  }

  // The bounds of the table that the following proofs need.
  lemma TableGaps(c: Characteristic)
    requires InTable(c)
    ensures 2 * c.lsclMin > ClkMin(c) && 260 <= c.hsclMin
    ensures c.hsclMin == 4000 || c.hsclMin == 600 || c.hsclMin == 260
    ensures c.lsclMin + c.hsclMin < Speed(c) && ClkMin(c) < Speed(c) && 4 * c.lsclMin > 4 * c.hsclMin
  {
    TableBounds(c);
  }

  // A choice with the highest high count misses nothing.
  lemma HighestIsSafe(c: Characteristic, ti: nat, presc: nat, scll: nat)
    requires InTable(c) && 1 <= ti && Candidate(c, ti, presc, scll, 255)
    ensures !Misses(c, ti, PrescTime(ti, presc), scll, 255)
  {
    var tp := PrescTime(ti, presc);
    TableBounds(c);
    TableGaps(c);
    TSclSum(c, ti, tp, scll, 255);
    assert tp >= ti by {
      MulMonotone(1, presc + 1, ti);
    }
    assert THigh(c, ti, tp, 255) == EdgeTime(c, ti) + 256 * tp;
    assert THigh(c, ti, tp, 256) == EdgeTime(c, ti) + 257 * tp;
    assert TLow(c, ti, tp, scll) <= EdgeTime(c, ti) + 256 * tp by {
      MulMonotone(scll + 1, 256, tp);
    }
    hide TLow, THigh, TScl, ClkMin, ClkMax, Speed, PrescTime;
  }

  // ---------------------------------------------------------------------------------------
  // A chosen clock that misses a bound has the lowest low count

  function End(ts: seq<Timing>): Choice {
    Choice(|ts|, 0, 0)
  }

  lemma MissingHasRoom(c: Characteristic, ti: nat, presc: nat, scll: nat, sclh: nat)
    requires InTable(c) && 1 <= ti && Candidate(c, ti, presc, scll, sclh)
    requires Misses(c, ti, PrescTime(ti, presc), scll, sclh)
    ensures sclh + 1 < SCLH_MAX
  {
    if sclh == 255 {
      HighestIsSafe(c, ti, presc, scll);
    }
  }

  lemma MissingIsFirst(c: Characteristic, ti: nat, ts: seq<Timing>, x: Choice)
    requires InTable(c) && 1 <= ti <= 500_000 && PrescsFit(ts)
    requires Best(c, ti, ts, Some(x), End(ts))
    requires Misses(c, ti, PrescTime(ti, ts[x.index].presc), x.scll, x.sclh)
    ensures PrescTime(ti, ts[x.index].presc) > 0
    ensures x.scll == ScllLowerBound(c, ti, ts[x.index].presc)
  {
    BestIsCandidate(c, ti, ts, x);
    hide Best, Misses, ScllLowerBound, TScl, TLow, THigh, EdgeTime, PrescTime, Speed, ClkMin, ClkMax, InTable;
    var presc := ts[x.index].presc;
    PrescTimeBounds(ti, presc);
    MissingHasRoom(c, ti, presc, x.scll, x.sclh);
    ScllBoundMeans(c, ti, presc, x.scll);
    hide Candidate;
    var y := Choice(x.index, x.scll - 1, x.sclh + 1);
    if ScllLowerBound(c, ti, presc) < x.scll {
      SamePeriod(c, ti, presc, x.scll, x.sclh);
      BestBeatsEarlier(c, ti, ts, x, y);
    }
  }

  lemma BestBeatsEarlier(c: Characteristic, ti: nat, ts: seq<Timing>, x: Choice, y: Choice)
    requires InTable(c) && Best(c, ti, ts, Some(x), End(ts)) && Offered(c, ti, ts, y) && Earlier(y, x)
    ensures ErrorOf(c, ti, ts, x) < ErrorOf(c, ti, ts, y)
  {
    hide Candidate, ErrorOf;
    assert Earlier(y, End(ts));
  }

  // A longer high period would not have been closer to the ideal clock.
  lemma LongerIsNotCloser(c: Characteristic, ti: nat, ts: seq<Timing>, x: Choice)
    requires InTable(c) && Best(c, ti, ts, Some(x), End(ts))
    requires Candidate(c, ti, ts[x.index].presc, x.scll, x.sclh + 1)
    ensures ErrorOf(c, ti, ts, x) <= ErrorOf(c, ti, ts, x.(sclh := x.sclh + 1))
  {
    hide Candidate, ErrorOf;
    var y := x.(sclh := x.sclh + 1);
    assert Offered(c, ti, ts, y) && Earlier(y, End(ts));
  }

  // ---------------------------------------------------------------------------------------
  // The exact conditions, which source clock and prescaler decide

  lemma QuotientIs(a: int, d: nat, k: nat)
    requires d > 0
    ensures a / d == k <==> k * d <= a < (k + 1) * d
  {
    if a >= 0 {
      QuotientAtLeast(a, d, k);
      QuotientAtLeast(a, d, k + 1);
    } else {
      MulMonotone(0, k, d);
    }
  }

  // The highest high count whose high period is at most the minimum, with one count to spare.
  function FirstSclh(c: Characteristic, ti: nat, presc: nat): int
    requires PrescTime(ti, presc) > 0
  {
    (HighMin(c, ti) - EdgeTime(c, ti)) / PrescTime(ti, presc) - 1
  }

  // The highest high count that the greatest period allows, with the lowest low count.
  function LastSclh(c: Characteristic, ti: nat, presc: nat): int
    requires InTable(c) && PrescTime(ti, presc) > 0
  {
    (ClkMax(c) - TScl(c, ti, PrescTime(ti, presc), ScllLowerBound(c, ti, presc), 0)) / PrescTime(ti, presc) - 2
  }

  lemma FirstSclhIs(c: Characteristic, ti: nat, presc: nat, sclh: nat)
    requires InTable(c) && PrescTime(ti, presc) > 0
    ensures var tp := PrescTime(ti, presc);
            FirstSclh(c, ti, presc) == sclh <==> THigh(c, ti, tp, sclh) <= HighMin(c, ti) < THigh(c, ti, tp, sclh + 1)
  {
    hide PrescTime, EdgeTime, HighMin;
    QuotientIs(HighMin(c, ti) - EdgeTime(c, ti), PrescTime(ti, presc), sclh + 1);
  }

  lemma LastSclhIs(c: Characteristic, ti: nat, presc: nat, sclh: nat)
    requires InTable(c) && PrescTime(ti, presc) > 0
    ensures var tp, scll := PrescTime(ti, presc), ScllLowerBound(c, ti, presc);
            LastSclh(c, ti, presc) == sclh <==>
            TScl(c, ti, tp, scll, sclh) + 2 * tp <= ClkMax(c) < TScl(c, ti, tp, scll, sclh) + 3 * tp
  {
    var tp, scll := PrescTime(ti, presc), ScllLowerBound(c, ti, presc);
    TSclGrows(c, ti, tp, scll, 0, scll, sclh);
    hide PrescTime, ScllLowerBound, TScl, ClkMax;
    OneMore(sclh, tp);
    OneMore(sclh + 1, tp);
    OneMore(sclh + 2, tp);
    QuotientIs(ClkMax(c) - TScl(c, ti, tp, scll, 0), tp, sclh + 2);
  }

  /**
   The lowest low count that is long enough, with the highest high count that is not, is a choice that
   the search looks at, and one count more is none or no closer to the ideal clock.
   */
  predicate HighFallsShort(c: Characteristic, ti: nat, presc: nat)
    requires InTable(c) && PrescTime(ti, presc) > 0
  {
    var tp, scll := PrescTime(ti, presc), ScllLowerBound(c, ti, presc);
    var sclh := FirstSclh(c, ti, presc);
    && sclh >= 0 && Candidate(c, ti, presc, scll, sclh) && THigh(c, ti, tp, sclh) < c.hsclMin
    && (Candidate(c, ti, presc, scll, sclh + 1) ==> Error(c, ti, tp, scll, sclh) <= Error(c, ti, tp, scll, sclh + 1))
  }

  /**
   The slowest clock with the lowest low count, which is limited by the greatest period, is a choice
   that the search looks at, and is faster than allowed.
   */
  predicate ClockTooFast(c: Characteristic, ti: nat, presc: nat)
    requires InTable(c) && PrescTime(ti, presc) > 0
  {
    var tp, scll := PrescTime(ti, presc), ScllLowerBound(c, ti, presc);
    var sclh := LastSclh(c, ti, presc);
    sclh >= 0 && Candidate(c, ti, presc, scll, sclh) && TScl(c, ti, tp, scll, sclh) < ClkMin(c)
  }

  /** A chosen clock whose high period is too short has a prescaler for which this condition holds. */
  lemma ShortHighIsForeseen(c: Characteristic, ti: nat, ts: seq<Timing>, x: Choice)
    requires InTable(c) && 1 <= ti <= 500_000 && PrescsFit(ts)
    requires Best(c, ti, ts, Some(x), End(ts))
    requires THigh(c, ti, PrescTime(ti, ts[x.index].presc), x.sclh) < c.hsclMin
    ensures PrescTime(ti, ts[x.index].presc) > 0 && HighFallsShort(c, ti, ts[x.index].presc)
  {
    var presc := ts[x.index].presc;
    var tp := PrescTime(ti, presc);
    BestIsCandidate(c, ti, ts, x);
    hide Best;
    MissingIsFirst(c, ti, ts, x);
    assert THigh(c, ti, tp, x.sclh) < HighMin(c, ti) < THigh(c, ti, tp, x.sclh + 1);
    hide PrescTime, EdgeTime, ScllLowerBound, Error, Candidate, THigh, HighMin, FirstSclh;
    FirstSclhIs(c, ti, presc, x.sclh);
    if Candidate(c, ti, presc, x.scll, x.sclh + 1) {
      LongerIsNotCloser(c, ti, ts, x);
    }
  }

  // A chosen clock that is too fast is as slow as the greatest period allows.
  lemma FastClockIsLast(c: Characteristic, ti: nat, ts: seq<Timing>, x: Choice)
    requires InTable(c) && 1 <= ti <= 500_000 && PrescsFit(ts)
    requires Best(c, ti, ts, Some(x), End(ts))
    requires TScl(c, ti, PrescTime(ti, ts[x.index].presc), x.scll, x.sclh) < ClkMin(c)
    ensures ClkMax(c) < TScl(c, ti, PrescTime(ti, ts[x.index].presc), x.scll, x.sclh) + 3 * PrescTime(ti, ts[x.index].presc)
  {
    var presc := ts[x.index].presc;
    var tp := PrescTime(ti, presc);
    PrescTimeBounds(ti, presc);
    MissingHasRoom(c, ti, presc, x.scll, x.sclh);
    var period := TScl(c, ti, tp, x.scll, x.sclh);
    hide Best, PrescTime, TScl, Candidate;
    if period + 3 * tp <= ClkMax(c) {
      LongerPeriod(c, ti, presc, x.scll, x.sclh);
      LongerIsNotCloser(c, ti, ts, x);
      CloserFromBelow(c, period, tp);
    }
  }

  /** A chosen clock that is too fast has a prescaler for which that condition holds. */
  lemma FastClockIsForeseen(c: Characteristic, ti: nat, ts: seq<Timing>, x: Choice)
    requires InTable(c) && 1 <= ti <= 500_000 && PrescsFit(ts)
    requires Best(c, ti, ts, Some(x), End(ts))
    requires TScl(c, ti, PrescTime(ti, ts[x.index].presc), x.scll, x.sclh) < ClkMin(c)
    ensures PrescTime(ti, ts[x.index].presc) > 0 && ClockTooFast(c, ti, ts[x.index].presc)
  {
    var presc := ts[x.index].presc;
    var tp := PrescTime(ti, presc);
    MissingIsFirst(c, ti, ts, x);
    FastClockIsLast(c, ti, ts, x);
    CandidateIsSafe(c, ti, presc, x.scll, x.sclh);
    hide Best, PrescTime, TScl, TLow, THigh, EdgeTime, ScllLowerBound, Candidate, LastSclh, ClkMin, ClkMax;
    LastSclhIs(c, ti, presc, x.sclh);
  }

  // A period below the least one comes closer to the ideal when it is lengthened.
  lemma CloserFromBelow(c: Characteristic, period: nat, tp: nat)
    requires InTable(c) && tp > 0 && period < ClkMin(c) && period + 3 * tp <= ClkMax(c)
    ensures Speed(c) - period > 0 && Speed(c) - period > period + tp - Speed(c)
  {
  }

  // Periods differ by whole counts.
  lemma TSclGrows(c: Characteristic, ti: nat, tp: nat, scll: nat, sclh: nat, scll': nat, sclh': nat)
    requires InTable(c) && scll + sclh <= scll' + sclh'
    ensures TScl(c, ti, tp, scll', sclh') == TScl(c, ti, tp, scll, sclh) + (scll' + sclh' - scll - sclh) * tp
    ensures TScl(c, ti, tp, scll, sclh) <= TScl(c, ti, tp, scll', sclh')
  {
    TSclSum(c, ti, tp, scll, sclh);
    TSclSum(c, ti, tp, scll', sclh');
    assert (scll' + sclh' + 2) * tp == (scll + sclh + 2) * tp + (scll' + sclh' - scll - sclh) * tp;
    MulMonotone(scll + sclh + 2, scll' + sclh' + 2, tp);
  }

  // A candidate has counts no lower than the first ones.
  lemma CandidateIsNotBelow(c: Characteristic, ti: nat, presc: nat, scll: nat, sclh: nat)
    requires InTable(c) && 1 <= ti <= 500_000 && presc < PRESC_MAX && Candidate(c, ti, presc, scll, sclh)
    ensures PrescTime(ti, presc) > 0 && ScllLowerBound(c, ti, presc) <= scll
    ensures FirstSclh(c, ti, presc) <= sclh
  {
    var tp := PrescTime(ti, presc);
    ScllBoundMeans(c, ti, presc, scll);
    var a := HighMin(c, ti) - EdgeTime(c, ti);
    QuotientAtLeast(a, tp, sclh + 2);
  }

  // A clock no slower than one that is not improved by one count more is not improved by further ones.
  lemma NotImproved(c: Characteristic, t: nat, step: nat, far: nat)
    requires InTable(c) && 0 < step <= far
    requires var e := t - Speed(c); var e' := t + step - Speed(c);
             (if e < 0 then -e else e) <= (if e' < 0 then -e' else e')
    ensures var e := t - Speed(c); var e' := t + far - Speed(c);
            (if e < 0 then -e else e) <= (if e' < 0 then -e' else e')
  {
  }

  lemma FurtherIsNotCloser(c: Characteristic, ti: nat, tp: nat, scll: nat, sclh: nat, scll': nat, sclh': nat)
    requires InTable(c) && tp > 0
    requires TScl(c, ti, tp, scll, sclh + 1) == TScl(c, ti, tp, scll, sclh) + tp <= TScl(c, ti, tp, scll', sclh')
    requires Error(c, ti, tp, scll, sclh) <= Error(c, ti, tp, scll, sclh + 1)
    ensures Error(c, ti, tp, scll, sclh) <= Error(c, ti, tp, scll', sclh')
  {
    var t := TScl(c, ti, tp, scll, sclh);
    var far := TScl(c, ti, tp, scll', sclh') - t;
    hide TScl, Speed, InTable;
    NotImproved(c, t, tp, far);
  }

  // If there is room for a longer period, one count more is a candidate, and no closer.
  lemma FirstIsNotImproved(c: Characteristic, ti: nat, presc: nat, scll: nat, sclh: nat)
    requires InTable(c) && 1 <= ti <= 500_000 && presc < PRESC_MAX
    requires PrescTime(ti, presc) > 0 && HighFallsShort(c, ti, presc)
    requires scll == ScllLowerBound(c, ti, presc)
    requires sclh == FirstSclh(c, ti, presc)
    requires TScl(c, ti, PrescTime(ti, presc), scll, sclh) + 3 * PrescTime(ti, presc) <= ClkMax(c)
    ensures Error(c, ti, PrescTime(ti, presc), scll, sclh) <= Error(c, ti, PrescTime(ti, presc), scll, sclh + 1)
  {
    hide PrescTime, TLow, THigh, EdgeTime, TScl, ScllLowerBound, Candidate, Error;
    MissingHasRoom(c, ti, presc, scll, sclh);
    LongerPeriod(c, ti, presc, scll, sclh);
  }

  // Other candidates have higher counts, and are no closer.
  lemma HighFallsShortIsFirst(c: Characteristic, ti: nat, presc: nat, scll: nat, sclh: nat, scll': nat, sclh': nat)
    requires InTable(c) && 1 <= ti <= 500_000 && presc < PRESC_MAX
    requires PrescTime(ti, presc) > 0 && HighFallsShort(c, ti, presc)
    requires scll == ScllLowerBound(c, ti, presc)
    requires sclh == FirstSclh(c, ti, presc)
    requires Candidate(c, ti, presc, scll', sclh') && (scll' != scll || sclh' != sclh)
    ensures scll <= scll' && sclh <= sclh'
    ensures Error(c, ti, PrescTime(ti, presc), scll, sclh) <= Error(c, ti, PrescTime(ti, presc), scll', sclh')
  {
    var tp := PrescTime(ti, presc);
    CandidateIsNotBelow(c, ti, presc, scll', sclh');
    CandidateIsSafe(c, ti, presc, scll', sclh');
    hide PrescTime, TLow, THigh, TScl, EdgeTime, ScllLowerBound, Candidate, HighFallsShort, FirstSclh, HighMin, ClkMin, Speed, InTable;
    TSclGrows(c, ti, tp, scll, sclh + 1, scll', sclh');
    TSclSum(c, ti, tp, scll, sclh);
    FirstIsNotImproved(c, ti, presc, scll, sclh);
    FurtherIsNotCloser(c, ti, tp, scll, sclh, scll', sclh');
  }

  // With a prescaler of which ClockTooFast holds, every choice that the search looks at is too fast.
  lemma AllAreTooFast(c: Characteristic, ti: nat, presc: nat, scll: nat, sclh: nat)
    requires InTable(c) && 1 <= ti <= 500_000 && presc < PRESC_MAX
    requires PrescTime(ti, presc) > 0 && ClockTooFast(c, ti, presc)
    requires Candidate(c, ti, presc, scll, sclh)
    ensures TScl(c, ti, PrescTime(ti, presc), scll, sclh) < ClkMin(c)
  {
    var tp := PrescTime(ti, presc);
    var low := ScllLowerBound(c, ti, presc);
    CandidateIsNotBelow(c, ti, presc, scll, sclh);
    CandidateIsSafe(c, ti, presc, scll, sclh);
    var last: nat := LastSclh(c, ti, presc);
    hide Candidate, EdgeTime, TScl, ScllLowerBound, PrescTime, LastSclh, ClkMin, ClkMax;
    LastSclhIs(c, ti, presc, last);
    if low + last < scll + sclh {
      TSclGrows(c, ti, tp, low, last, scll, sclh);
      MulMonotone(1, scll + sclh - low - last, tp);
    } else {
      TSclGrows(c, ti, tp, scll, sclh, low, last);
    }
  }

  // What the search returns for a single prescaler is some candidate, if there is one.
  lemma SomethingIsBest(c: Characteristic, ti: nat, ts: seq<Timing>, best: Option<Choice>, x: Choice)
    requires InTable(c) && Best(c, ti, ts, best, End(ts)) && Offered(c, ti, ts, x)
    ensures best.Some? && ErrorOf(c, ti, ts, best.value) <= ErrorOf(c, ti, ts, x)
    ensures Earlier(x, best.value) ==> ErrorOf(c, ti, ts, best.value) < ErrorOf(c, ti, ts, x)
  {
    hide Candidate, ErrorOf;
    assert Earlier(x, End(ts));
  }

  lemma BestIsCandidate(c: Characteristic, ti: nat, ts: seq<Timing>, x: Choice)
    requires InTable(c) && Best(c, ti, ts, Some(x), End(ts))
    ensures x.index < |ts| && Candidate(c, ti, ts[x.index].presc, x.scll, x.sclh)
  {
    hide Candidate, ErrorOf;
  }

  lemma ForeseenHighIsShort(c: Characteristic, ti: nat, t: Timing, best: Option<Choice>)
    requires InTable(c) && 1 <= ti <= 500_000 && t.presc < PRESC_MAX && Best(c, ti, [t], best, End([t]))
    requires PrescTime(ti, t.presc) > 0 && HighFallsShort(c, ti, t.presc)
    ensures best.Some? && THigh(c, ti, PrescTime(ti, t.presc), best.value.sclh) < c.hsclMin
  {
    var tp := PrescTime(ti, t.presc);
    var scll, sclh := ScllLowerBound(c, ti, t.presc), FirstSclh(c, ti, t.presc);
    var y := Choice(0, scll, sclh);
    hide Candidate, Error, THigh, EdgeTime, ScllLowerBound, PrescTime, Best;
    SomethingIsBest(c, ti, [t], best, y);
    var x := best.value;
    BestIsCandidate(c, ti, [t], x);
    if x.scll != scll || x.sclh != sclh {
      HighFallsShortIsFirst(c, ti, t.presc, scll, sclh, x.scll, x.sclh);
    }
  }

  /**
   For a single prescaler the search returns a clock whose high period is too short if and only if
   HighFallsShort holds of it.
   */
  lemma ShortHighOfOne(c: Characteristic, ti: nat, t: Timing, best: Option<Choice>)
    requires InTable(c) && 1 <= ti <= 500_000 && t.presc < PRESC_MAX && Best(c, ti, [t], best, End([t]))
    ensures PrescTime(ti, t.presc) > 0
    ensures best.Some? && THigh(c, ti, PrescTime(ti, t.presc), best.value.sclh) < c.hsclMin <==> HighFallsShort(c, ti, t.presc)
  {
    PrescTimeBounds(ti, t.presc);
    if best.Some? {
      BestIsCandidate(c, ti, [t], best.value);
    }
    hide Candidate, THigh, PrescTime, HighFallsShort, Best;
    if best.Some? && THigh(c, ti, PrescTime(ti, t.presc), best.value.sclh) < c.hsclMin {
      ShortHighIsForeseen(c, ti, [t], best.value);
    }
    if HighFallsShort(c, ti, t.presc) {
      ForeseenHighIsShort(c, ti, t, best);
    }
  }

  lemma ForeseenClockIsFast(c: Characteristic, ti: nat, t: Timing, best: Option<Choice>)
    requires InTable(c) && 1 <= ti <= 500_000 && t.presc < PRESC_MAX && Best(c, ti, [t], best, End([t]))
    requires PrescTime(ti, t.presc) > 0 && ClockTooFast(c, ti, t.presc)
    ensures best.Some? && TScl(c, ti, PrescTime(ti, t.presc), best.value.scll, best.value.sclh) < ClkMin(c)
  {
    var scll := ScllLowerBound(c, ti, t.presc);
    var sclh := LastSclh(c, ti, t.presc);
    hide Candidate, EdgeTime, TScl, ScllLowerBound, PrescTime, Best;
    SomethingIsBest(c, ti, [t], best, Choice(0, scll, sclh));
    BestIsCandidate(c, ti, [t], best.value);
    AllAreTooFast(c, ti, t.presc, best.value.scll, best.value.sclh);
  }

  /** And one that is too fast if and only if ClockTooFast holds of it. */
  lemma FastClockOfOne(c: Characteristic, ti: nat, t: Timing, best: Option<Choice>)
    requires InTable(c) && 1 <= ti <= 500_000 && t.presc < PRESC_MAX && Best(c, ti, [t], best, End([t]))
    ensures PrescTime(ti, t.presc) > 0
    ensures best.Some? && TScl(c, ti, PrescTime(ti, t.presc), best.value.scll, best.value.sclh) < ClkMin(c) <==> ClockTooFast(c, ti, t.presc)
  {
    PrescTimeBounds(ti, t.presc);
    if best.Some? {
      BestIsCandidate(c, ti, [t], best.value);
    }
    hide Candidate, TScl, PrescTime, ClockTooFast, Best;
    if best.Some? && TScl(c, ti, PrescTime(ti, t.presc), best.value.scll, best.value.sclh) < ClkMin(c) {
      FastClockIsForeseen(c, ti, [t], best.value);
    }
    if ClockTooFast(c, ti, t.presc) {
      ForeseenClockIsFast(c, ti, t, best);
    }
  }

  // What is best of all timings is best of the timing it is made of.
  lemma BestOfOne(c: Characteristic, ti: nat, ts: seq<Timing>, x: Choice) returns (t: Timing)
    requires InTable(c) && Best(c, ti, ts, Some(x), End(ts))
    ensures x.index < |ts| && t == ts[x.index]
    ensures Best(c, ti, [t], Some(Choice(0, x.scll, x.sclh)), End([t]))
  {
    hide Candidate, Error;
    BestIsCandidate(c, ti, ts, x);
    t := ts[x.index];
    var one := Choice(0, x.scll, x.sclh);
    forall y | Offered(c, ti, [t], y) && Earlier(y, End([t]))
      ensures ErrorOf(c, ti, [t], one) <= ErrorOf(c, ti, [t], y)
      ensures Earlier(y, one) ==> ErrorOf(c, ti, [t], one) < ErrorOf(c, ti, [t], y)
    {
      var z := y.(index := x.index);
      assert Offered(c, ti, ts, z);
      SomethingIsBest(c, ti, ts, Some(x), z);
    }
  }

  /**
   For any timings, the clock that the search returns has a high period that is too short if and only if
   HighFallsShort holds of its prescaler.
   */
  lemma ShortHighExactly(c: Characteristic, ti: nat, ts: seq<Timing>, x: Choice)
    requires InTable(c) && 1 <= ti <= 500_000 && PrescsFit(ts) && Best(c, ti, ts, Some(x), End(ts))
    ensures PrescTime(ti, ts[x.index].presc) > 0
    ensures THigh(c, ti, PrescTime(ti, ts[x.index].presc), x.sclh) < c.hsclMin <==> HighFallsShort(c, ti, ts[x.index].presc)
  {
    var t := BestOfOne(c, ti, ts, x);
    hide Best, THigh, PrescTime, HighFallsShort;
    ShortHighOfOne(c, ti, t, Some(Choice(0, x.scll, x.sclh)));
  }

  /** And it is too fast if and only if ClockTooFast holds of its prescaler. */
  lemma FastClockExactly(c: Characteristic, ti: nat, ts: seq<Timing>, x: Choice)
    requires InTable(c) && 1 <= ti <= 500_000 && PrescsFit(ts) && Best(c, ti, ts, Some(x), End(ts))
    ensures PrescTime(ti, ts[x.index].presc) > 0
    ensures TScl(c, ti, PrescTime(ti, ts[x.index].presc), x.scll, x.sclh) < ClkMin(c) <==> ClockTooFast(c, ti, ts[x.index].presc)
  {
    var t := BestOfOne(c, ti, ts, x);
    hide Best, TScl, PrescTime, ClockTooFast;
    FastClockOfOne(c, ti, t, Some(Choice(0, x.scll, x.sclh)));
  }

  // ---------------------------------------------------------------------------------------
  // Prescalers that are fine enough

  /** One count is short against the gaps of the characteristic: up to 866 ns in standard mode, 306 ns and 122 ns in the fast modes. */
  predicate Fine(c: Characteristic, tp: nat)
    requires InTable(c)
  {
    && c.lsclMin + c.hsclMin + 4 * tp <= ClkMax(c)
    && 3 * tp <= 2 * (Speed(c) - c.lsclMin - c.hsclMin)
  }

  lemma FineMeans(tp: nat)
    ensures Fine(CHARACTERISTICS[0], tp) <==> tp <= 866
    ensures Fine(CHARACTERISTICS[1], tp) <==> tp <= 306
    ensures Fine(CHARACTERISTICS[2], tp) <==> tp <= 122
  {
    assert ClkMax(CHARACTERISTICS[0]) == 12_500 && Speed(CHARACTERISTICS[0]) == 10_000;
    assert ClkMax(CHARACTERISTICS[1]) == 3_125 && Speed(CHARACTERISTICS[1]) == 2_500;
    assert ClkMax(CHARACTERISTICS[2]) == 1_250 && Speed(CHARACTERISTICS[2]) == 1_000;
  }

  lemma SmallCount(edge: nat, tp: nat, scll: nat, low: nat)
    requires scll <= 3 && 2 * edge + (scll + 3) * tp < 2 * low
    ensures edge + scll * tp <= low
  {
    MulMonotone(2 * scll, scll + 3, tp);
    assert 2 * (scll * tp) == (2 * scll) * tp;
  }

  // The lowest low count of a candidate exceeds the minimum of the low period by at most one count.
  lemma LowIsTight(c: Characteristic, ti: nat, presc: nat, scll: nat, sclh: nat)
    requires InTable(c) && 1 <= ti <= 500_000 && presc < PRESC_MAX && PrescTime(ti, presc) > 0
    requires Candidate(c, ti, presc, scll, sclh) && scll == ScllLowerBound(c, ti, presc)
    ensures TLow(c, ti, PrescTime(ti, presc), scll) <= c.lsclMin + PrescTime(ti, presc)
  {
    var tp := PrescTime(ti, presc);
    if scll <= 3 {
      TSclSum(c, ti, tp, scll, 1);
      LowSum(c, ti, tp, scll);
      TableGaps(c);
      hide TLow, THigh, TScl, EdgeTime, ScllLowerBound, PrescTime, ClkMin, ClkMax, Speed, InTable, HighMin;
      SmallCount(EdgeTime(c, ti), tp, scll, c.lsclMin);
    } else {
      hide TLow, THigh, TScl, EdgeTime, ScllLowerBound, PrescTime, ClkMin, ClkMax, HighMin;
      QuotientAtMost(2, presc + 1);
      ScllBoundMeans(c, ti, presc, scll - 1);
      TSclSum(c, ti, tp, scll - 1, 0);
    }
  }

  lemma LowSum(c: Characteristic, ti: nat, tp: nat, scll: nat)
    ensures TLow(c, ti, tp, scll) == EdgeTime(c, ti) + scll * tp + tp
  {
    OneMore(scll, tp);
  }

  lemma FineHighIsLong(c: Characteristic, ti: nat, presc: nat)
    requires InTable(c) && 1 <= ti <= 500_000 && presc < PRESC_MAX && Fine(c, PrescTime(ti, presc))
    requires PrescTime(ti, presc) > 0
    ensures !HighFallsShort(c, ti, presc)
  {
    var tp, scll := PrescTime(ti, presc), ScllLowerBound(c, ti, presc);
    var sclh := FirstSclh(c, ti, presc);
    if HighFallsShort(c, ti, presc) {
      TSclSum(c, ti, tp, scll, sclh);
      TSclSum(c, ti, tp, scll, sclh + 1);
      hide PrescTime, TLow, THigh, TScl, EdgeTime, ScllLowerBound, Candidate, ClkMin, ClkMax, Speed, HighMin, InTable;
      LowIsTight(c, ti, presc, scll, sclh);
      FirstIsNotImproved(c, ti, presc, scll, sclh);
    }
  }

  lemma FineClockIsSlow(c: Characteristic, ti: nat, presc: nat)
    requires InTable(c) && 1 <= ti <= 500_000 && presc < PRESC_MAX && Fine(c, PrescTime(ti, presc))
    requires PrescTime(ti, presc) > 0
    ensures !ClockTooFast(c, ti, presc)
  {
    var tp, scll := PrescTime(ti, presc), ScllLowerBound(c, ti, presc);
    if ClockTooFast(c, ti, presc) {
      var sclh := LastSclh(c, ti, presc);
      hide PrescTime, TLow, THigh, TScl, EdgeTime, ScllLowerBound, Candidate, ClkMin, ClkMax;
      LastSclhIs(c, ti, presc, sclh);
      FineIsBelowGap(c, tp);
    }
  }

  /** Under this condition neither failure occurs. */
  lemma FineIsSafe(c: Characteristic, ti: nat, presc: nat)
    requires InTable(c) && 1 <= ti <= 500_000 && presc < PRESC_MAX && Fine(c, PrescTime(ti, presc))
    ensures PrescTime(ti, presc) > 0 && !HighFallsShort(c, ti, presc) && !ClockTooFast(c, ti, presc)
  {
    PrescTimeBounds(ti, presc);
    hide PrescTime, HighFallsShort, ClockTooFast, Fine;
    FineHighIsLong(c, ti, presc);
    FineClockIsSlow(c, ti, presc);
  }

  lemma FineIsBelowGap(c: Characteristic, tp: nat)
    requires InTable(c) && Fine(c, tp)
    ensures 3 * tp < ClkMax(c) - ClkMin(c)
  {
  }

  // ---------------------------------------------------------------------------------------
  // The timings that are calculated

  const STANDARD := CHARACTERISTICS[CLOCK_SPEED_INDEX]

  lemma StandardBounds()
    ensures InTable(STANDARD) && STANDARD.lsclMin == 4700 && STANDARD.hsclMin == 4000 && Speed(STANDARD) == 10_000
    ensures ClkMin(STANDARD) == 8333 && ClkMax(STANDARD) == 12_500
  {
  }

  // The counts with prescaler 0 that give the lowest low period and the longest period up to the ideal one.
  lemma NearestCounts(ti: nat) returns (scll: nat, sclh: nat)
    requires 21 <= ti <= 716
    ensures scll <= 255 && sclh <= 255 && 2 <= scll
    ensures scll * ti <= 4650 - 2 * ti < scll * ti + ti
    ensures 9900 - 5 * ti < (scll + sclh + 2) * ti <= 9900 - 4 * ti
  {
    scll := (4650 - 2 * ti) / ti;
    var j := (9900 - 4 * ti) / ti;
    QuotientIs(4650 - 2 * ti, ti, scll);
    QuotientIs(9900 - 4 * ti, ti, j);
    OneMore(scll, ti);
    OneMore(j, ti);
    QuotientAtLeast(4650 - 2 * ti, ti, 256);
    QuotientAtLeast(4650 - 2 * ti, ti, 2);
    if j < scll + 2 {
      MulMonotone(j, scll + 1, ti);
    }
    assert (scll + 258) * ti == scll * ti + 258 * ti;
    if scll + 258 <= j {
      MulMonotone(scll + 258, j, ti);
    }
    sclh := j - scll - 2;
  }

  // They are a candidate.
  lemma NearestIsCandidate(ti: nat) returns (scll: nat, sclh: nat)
    requires 21 <= ti <= 716
    ensures Candidate(STANDARD, ti, 0, scll, sclh) && PrescTime(ti, 0) == ti
    ensures 10_000 - ti < TScl(STANDARD, ti, ti, scll, sclh) <= 10_000
  {
    scll, sclh := NearestCounts(ti);
    StandardBounds();
    var c := STANDARD;
    TSclSum(c, ti, ti, scll, sclh);
    TSclSum(c, ti, ti, scll, sclh + 1);
    TSclSum(c, ti, ti, scll, 1);
    OneMore(scll, ti);
    assert TLow(c, ti, ti, scll) == EdgeTime(c, ti) + scll * ti + ti;
    assert THigh(c, ti, ti, 0) == EdgeTime(c, ti) + ti;
    assert (scll + 3) * ti == scll * ti + 3 * ti;
    assert HighMin(c, ti) == 4000;
    hide TLow, THigh, TScl, EdgeTime, HighMin, InTable, ClkMin, ClkMax;
  }

  // A choice that misses a bound has a large count, and a period below the ideal one.
  lemma MissingIsCoarse(ti: nat, ts: seq<Timing>, x: Choice)
    requires 1 <= ti <= 500_000 && PrescsFit(ts) && Best(STANDARD, ti, ts, Some(x), End(ts))
    requires Misses(STANDARD, ti, PrescTime(ti, ts[x.index].presc), x.scll, x.sclh)
    ensures var tp := PrescTime(ti, ts[x.index].presc);
            866 < tp && TScl(STANDARD, ti, tp, x.scll, x.sclh) <= 10_000
  {
    StandardBounds();
    FineMeans(PrescTime(ti, ts[x.index].presc));
    var c, presc := STANDARD, ts[x.index].presc;
    var tp := PrescTime(ti, presc);
    BestIsCandidate(c, ti, ts, x);
    MissingIsFirst(c, ti, ts, x);
    hide Best, Fine;
    LowIsTight(c, ti, presc, x.scll, x.sclh);
    CandidateIsSafe(c, ti, presc, x.scll, x.sclh);
    TSclSum(c, ti, tp, x.scll, x.sclh);
    if THigh(c, ti, tp, x.sclh) < c.hsclMin {
      ShortHighIsForeseen(c, ti, ts, x);
    } else {
      FastClockIsForeseen(c, ti, ts, x);
    }
    hide PrescTime, TLow, THigh, TScl, EdgeTime, ScllLowerBound, Candidate, HighFallsShort, ClockTooFast;
    if tp <= 866 {
      FineIsSafe(c, ti, presc);
    }
  }

  // Such counts are candidates only with prescalers above 0 and source periods in a middle range.
  lemma CoarseIsDivided(ti: nat, presc: nat, scll: nat, sclh: nat)
    requires 1 <= ti <= 500_000 && presc < PRESC_MAX && Candidate(STANDARD, ti, presc, scll, sclh)
    requires 866 < PrescTime(ti, presc)
    ensures presc > 0 && 54 < ti <= 716
  {
    StandardBounds();
    var c, tp := STANDARD, PrescTime(ti, presc);
    TSclSum(c, ti, tp, scll, 1);
    OneMore(scll, tp);
    assert TLow(c, ti, tp, scll) == EdgeTime(c, ti) + scll * tp + tp;
    assert TScl(c, ti, tp, scll, 1) == 2 * EdgeTime(c, ti) + (scll + 3) * tp <= 8333;
    MulMonotone(presc + 1, 16, ti);
    if presc == 0 {
      if scll > 2 {
        MulMonotone(6, scll + 3, tp);
      }
    } else {
      MulMonotone(2, presc + 1, ti);
      MulMonotone(4, scll + 3, tp);
    }
  }

  // Periods with any prescaler are among those with prescaler 0.
  lemma FinerIsCloser(ti: nat, presc: nat, n: nat, m: nat)
    requires ti > 0 && n * PrescTime(ti, presc) <= 9900 - 4 * ti < m * ti + ti
    ensures n * PrescTime(ti, presc) <= m * ti
  {
    assert n * ((presc + 1) * ti) == (n * (presc + 1)) * ti;
    assert (m + 1) * ti == m * ti + ti;
    if m < n * (presc + 1) {
      MulMonotone(m + 1, n * (presc + 1), ti);
    } else {
      MulMonotone(n * (presc + 1), m, ti);
    }
  }

  lemma PrescZeroIsFeasible(mode: SpeedMode, ti: nat)
    requires ti >= 16
    ensures FeasiblePresc(CHARACTERISTICS[SpeedIndex(mode)], ti, 0)
  {
    assert MeetsDelays(CHARACTERISTICS[SpeedIndex(mode)], ti, 0, 15, 0);
  }

  // With prescaler 0 among the timings, no coarse choice with a period below the ideal one is the best.
  lemma CoarseIsNotBest(ti: nat, ts: seq<Timing>, zero: nat, x: Choice)
    requires 21 <= ti <= 716 && Best(STANDARD, ti, ts, Some(x), End(ts))
    requires zero < x.index && ts[zero].presc == 0
    ensures 10_000 < TScl(STANDARD, ti, PrescTime(ti, ts[x.index].presc), x.scll, x.sclh)
  {
    StandardBounds();
    var c, presc := STANDARD, ts[x.index].presc;
    var tp := PrescTime(ti, presc);
    var scll, sclh := NearestIsCandidate(ti);
    TSclSum(c, ti, tp, x.scll, x.sclh);
    TSclSum(c, ti, ti, scll, sclh);
    hide Best, Candidate, PrescTime, TScl, TLow, THigh, EdgeTime;
    BestBeatsEarlier(c, ti, ts, x, Choice(zero, scll, sclh));
    if TScl(c, ti, tp, x.scll, x.sclh) <= 10_000 {
      FinerIsCloser(ti, presc, x.scll + x.sclh + 2, scll + sclh + 2);
    }
  }

  // In an enumeration, prescaler 0 comes before every other one.
  lemma ZeroComesFirst(mode: SpeedMode, ti: nat, ts: seq<Timing>, i: nat) returns (zero: nat)
    requires Enumerates(CHARACTERISTICS[SpeedIndex(mode)], ti, ts, PRESC_MAX)
    requires ti >= 16 && i < |ts| && ts[i].presc > 0
    ensures zero < i && ts[zero].presc == 0
  {
    hide FeasiblePresc, LeastDelays;
    PrescZeroIsFeasible(mode, ti);
    zero :| 0 <= zero < |ts| && ts[zero].presc == 0;
  }

  lemma EnumeratedPrescsFit(c: Characteristic, ti: nat, ts: seq<Timing>)
    requires Enumerates(c, ti, ts, PRESC_MAX)
    ensures PrescsFit(ts)
  {
    hide LeastDelays, FeasiblePresc;
  }

  lemma EnumeratedNeverMiss(mode: SpeedMode, ti: nat, ts: seq<Timing>, x: Choice)
    requires 1 <= ti <= 500_000 && Enumerates(CHARACTERISTICS[SpeedIndex(mode)], ti, ts, PRESC_MAX)
    requires Best(STANDARD, ti, ts, Some(x), End(ts))
    ensures !Misses(STANDARD, ti, PrescTime(ti, ts[x.index].presc), x.scll, x.sclh)
  {
    EnumeratedPrescsFit(CHARACTERISTICS[SpeedIndex(mode)], ti, ts);
    BestIsCandidate(STANDARD, ti, ts, x);
    var presc := ts[x.index].presc;
    hide Best, Candidate, PrescTime, Misses, TScl, Enumerates;
    if Misses(STANDARD, ti, PrescTime(ti, presc), x.scll, x.sclh) {
      MissingIsCoarse(ti, ts, x);
      CoarseIsDivided(ti, presc, x.scll, x.sclh);
      var zero := ZeroComesFirst(mode, ti, ts, x.index);
      CoarseIsNotBest(ti, ts, zero, x);
    }
  }

  // The choice that a calculated timing is made of.
  lemma ChoiceOf(hz: nat, mode: SpeedMode, ts: seq<Timing>, timing: Timing) returns (x: Choice)
    requires Clock(hz) && Calculated(hz, mode, ts, Some(timing))
    ensures Best(STANDARD, ClockPeriod(hz), ts, Some(x), End(ts))
    ensures timing.presc == ts[x.index].presc && timing.scll == x.scll && timing.sclh == x.sclh
  {
    hide Enumerates, ClockPeriod, ErrorOf;
    var best :| Best(STANDARD, ClockPeriod(hz), ts, best, Choice(|ts|, 0, 0)) && Some(timing) == Chosen(ts, best);
    assert Offered(STANDARD, ClockPeriod(hz), ts, best.value);
    x := best.value;
  }

  lemma SafeUnlessMissing(ti: nat, presc: nat, scll: nat, sclh: nat)
    requires Candidate(STANDARD, ti, presc, scll, sclh)
    requires !Misses(STANDARD, ti, PrescTime(ti, presc), scll, sclh)
    ensures Safe(ti, presc, scll, sclh)
  {
    CandidateIsSafe(STANDARD, ti, presc, scll, sclh);
  }

  // The bounds of standard mode.
  predicate Safe(ti: nat, presc: nat, scll: nat, sclh: nat) {
    var c, tp := STANDARD, PrescTime(ti, presc);
    && c.lsclMin < TLow(c, ti, tp, scll) && c.hsclMin <= THigh(c, ti, tp, sclh)
    && ClkMin(c) <= TScl(c, ti, tp, scll, sclh) <= ClkMax(c)
  }

  /**
   A calculated timing meets every bound of standard mode: the low and the high period are long enough,
   and the clock is neither too fast nor too slow.
   */
  lemma CalculatedIsSafe(hz: nat, mode: SpeedMode, ts: seq<Timing>, timing: Timing)
    requires Clock(hz) && Calculated(hz, mode, ts, Some(timing))
    ensures Safe(ClockPeriod(hz), timing.presc, timing.scll, timing.sclh)
  {
    assert Enumerates(CHARACTERISTICS[SpeedIndex(mode)], ClockPeriod(hz), ts, PRESC_MAX);
    hide Calculated, Enumerates, ClockPeriod, Best, Candidate, Misses, Safe;
    var x := ChoiceOf(hz, mode, ts, timing);
    BestIsCandidate(STANDARD, ClockPeriod(hz), ts, x);
    EnumeratedNeverMiss(mode, ClockPeriod(hz), ts, x);
    SafeUnlessMissing(ClockPeriod(hz), timing.presc, timing.scll, timing.sclh);
  }

  // ---------------------------------------------------------------------------------------
  // The failures do occur

  /**
   For a source clock of 10.638 MHz and prescaler 15 alone, standard mode, the search returns a clock of
   125 kHz, above the greatest frequency of 120 kHz, with a high period of 3246 ns, below the least of 4000 ns.
   */
  lemma ReturnsFastClock(t: Timing, result: Option<Timing>)
    requires t.presc == 15 && Optimal(STANDARD, ClockPeriod(10_638_298), [t], result)
    ensures result == Some(t.(scll := 2, sclh := 1))
    ensures var tp := PrescTime(ClockPeriod(10_638_298), 15);
            && ClockPeriod(10_638_298) == 94
            && THigh(STANDARD, 94, tp, 1) == 3246 && TScl(STANDARD, 94, tp, 2, 1) == 7996
            && STANDARD.hsclMin == 4000 && ClkMin(STANDARD) == 8333
  {
    StandardBounds();
    assert ClockPeriod(10_638_298) == 94;
    assert Candidate(STANDARD, 94, 15, 2, 1);
    var best :| Best(STANDARD, 94, [t], best, End([t])) && result == Chosen([t], best);
    SomethingIsBest(STANDARD, 94, [t], best, Choice(0, 2, 1));
    BestIsCandidate(STANDARD, 94, [t], best.value);
    OnlyCandidate(best.value.scll, best.value.sclh);
  }

  lemma OnlyCandidate(scll: nat, sclh: nat)
    requires Candidate(STANDARD, 94, 15, scll, sclh)
    ensures scll == 2 && sclh == 1
  {
    StandardBounds();
    assert PrescTime(94, 15) == 1504;
    assert TLow(STANDARD, 94, 1504, scll) == 238 + (scll + 1) * 1504;
    assert TScl(STANDARD, 94, 1504, scll, 1) == 476 + (scll + 3) * 1504;
    assert TScl(STANDARD, 94, 1504, scll, sclh + 2) == 476 + (scll + sclh + 4) * 1504;
    assert THigh(STANDARD, 94, 1504, sclh + 1) == 238 + (sclh + 2) * 1504;
    hide PrescTime, TLow, THigh, TScl, EdgeTime;
  }
}
