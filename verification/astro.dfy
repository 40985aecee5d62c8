/** The astronomy driver: turning a local birth time into the UTC date the
    Julian-day routine receives, the thirteen body longitudes in their fixed
    order, and the search for the design date 88° of solar arc earlier. The
    astronomy library itself is a set of function parameters. */
module AstroCalc {
  import opened Wrappers
  import opened Arith
  import opened Angles
  import opened Calendar
  import Wheel

  /** Rust's `f64::fract`: what is left after truncating toward zero. */
  function Fract(x: real): (f: real)
    ensures x >= 0.0 ==> 0.0 <= f < 1.0
    ensures x < 0.0 ==> -1.0 < f <= 0.0
  {
    x - (Trunc(x) as real)
  }

  function Abs(x: real): (a: real)
    ensures a >= 0.0 && (a == x || a == -x)
  {
    if x < 0.0 then -x else x
  }

  /** The date and time fields of the library's `DayOfMonth` (seconds and
      time zone are always 0). */
  datatype DayOfMonth = DayOfMonth(day: U8, hr: U8, min: U8)

  /** The library's Gregorian `Date`: an `i16` year, a month and a day. */
  datatype AstroDate = AstroDate(year: int, month: Month, dayOfMonth: DayOfMonth)

  /** Local clock time minus the UTC offset, in hours; outside [0, 24) when
      the conversion crosses midnight. */
  function TotalHours(hour: U8, min: U8, offset: real): real {
    (hour as real) + (min as real) / 60.0 - offset
  }

  /** Hours and whole minutes of a time of day given in hours. */
  function HourField(h: real): U8 {
    SatU8(h.Floor)
  }

  function MinuteField(h: real): U8 {
    SatU8((Fract(h) * 60.0).Floor)
  }

  /** The UTC date, hour and minute that `calc_julian_day` builds: the
      previous day when the total is negative, the next day at 24 hours or
      more, the local date otherwise. */
  function UtcDateTime(d: Date, hour: U8, min: U8, offset: real): (r: (Date, U8, U8))
  {
    var total := TotalHours(hour, min, offset);
    if total < 0.0 then
      var corrected := total + 24.0;
      (PrevDay(d), HourField(corrected), MinuteField(corrected))
    else if total >= 24.0 then
      var corrected := total - 24.0;
      (NextDay(d), HourField(corrected), MinuteField(corrected))
    else
      (d, HourField(total), SatU8((Abs(Fract(total)) * 60.0).Floor))
  }

  /** `calc_julian_day`, with the library's `decimal_day` and `julian_day`
      folded into the parameter `julianDay`; `None` where `month_from_u8`
      panics. */
  function CalcJulianDay(julianDay: AstroDate -> real, d: Date, hour: U8, min: U8, offset: real): (r: Option<real>)
    ensures r.Some? <==> 1 <= UtcDateTime(d, hour, min, offset).0.month <= 12
    ensures r.Some? ==>
              var (utc, hr, mn) := UtcDateTime(d, hour, min, offset);
              r.value == julianDay(AstroDate(WrapI16(utc.year), MonthFromU8(utc.month).value, DayOfMonth(utc.day, hr, mn)))
  {
    var (utc, hr, mn) := UtcDateTime(d, hour, min, offset);
    match MonthFromU8(utc.month)
    case None => None
    case Some(month) => Some(julianDay(AstroDate(WrapI16(utc.year), month, DayOfMonth(utc.day, hr, mn))))
  }

  /** The clock inputs the command line accepts: an hour up to 23, a
      minute up to 59 and an offset between -12 and +14 hours. The date is
      not restricted here: the command line takes any day 1..31 in any
      month. */
  predicate ClockInputs(hour: U8, min: U8, offset: real) {
    hour <= 23 && min <= 59 && -12.0 <= offset <= 14.0
  }

  /** The whole days the conversion crosses: -1, 0 or +1. */
  function DayShift(hour: U8, min: U8, offset: real): int {
    var total := TotalHours(hour, min, offset);
    if total < 0.0 then -1 else if total >= 24.0 then 1 else 0
  }

  /** For hours in [0, 24) the hour and minute fields are the time of day,
      truncated to the minute. */
  lemma ClockFields(h: real)
    requires 0.0 <= h < 24.0
    ensures HourField(h) <= 23 && MinuteField(h) <= 59
    ensures HourField(h) * 60 + MinuteField(h) == (h * 60.0).Floor
  {
    var f := Fract(h);
    assert Trunc(h) == h.Floor;
    assert h * 60.0 == ((60 * h.Floor) as real) + f * 60.0;
  }

  /** The rollover decision, for any date, real or not: the date steps back
      a day when the total is negative and forward at 24 hours or more, the
      UTC fields are a clock time, and shifting the UTC clock by the days
      crossed gives back the local clock minus the offset, to the minute. */
  lemma RolloverClock(d: Date, hour: U8, min: U8, offset: real)
    requires ClockInputs(hour, min, offset)
    ensures var (utc, hr, mn) := UtcDateTime(d, hour, min, offset);
            var shift := DayShift(hour, min, offset);
            && (shift == -1 ==> utc == PrevDay(d))
            && (shift == 1 ==> utc == NextDay(d))
            && (shift == 0 ==> utc == d)
            && hr <= 23 && mn <= 59
            && hr * 60 + mn == ((TotalHours(hour, min, offset) - 24.0 * (shift as real)) * 60.0).Floor
  {
    var total := TotalHours(hour, min, offset);
    assert -14.0 <= total < 36.0;
    if total < 0.0 {
      ClockFields(total + 24.0);
    } else if total >= 24.0 {
      ClockFields(total - 24.0);
    } else {
      ClockFields(total);
    }
  }

  /** On a real calendar day the UTC date is a real day too, and it is
      exactly one day away when midnight is crossed: the day after it is the
      local date when the clock went back, the day before it when the clock
      went forward. */
  lemma Rollover(d: Date, hour: U8, min: U8, offset: real)
    requires Valid(d) && ClockInputs(hour, min, offset)
    ensures var utc := UtcDateTime(d, hour, min, offset).0;
            var shift := DayShift(hour, min, offset);
            && Valid(utc)
            && (shift == -1 ==> NextDay(utc) == d)
            && (shift == 1 ==> PrevDay(utc) == d)
            && (shift == 0 ==> utc == d)
  {
    RolloverClock(d, hour, min, offset);
    StepsKeepValid(d);
    NextOfPrev(d);
    PrevOfNext(d);
  }

  /** A day its month does not have breaks the one-day step. On 31 February
      at UTC-2, 21:59 local time is 23:59 UTC on that same day, numbered day
      62 of the year, while one minute later, 22:00, is 00:00 UTC on 1 March,
      day 60 or 61: the time handed on jumps back although the clock went
      forward, and the day before 1 March is not the local date. */
  lemma FebruaryThirtyFirstStepsBack(year: int)
    ensures UtcDateTime(Date(year, 2, 31), 21, 59, -2.0) == (Date(year, 2, 31), 23, 59)
    ensures UtcDateTime(Date(year, 2, 31), 22, 0, -2.0) == (Date(year, 3, 1), 0, 0)
    ensures DayOfYear(Date(year, 2, 31)) == 62
    ensures DayOfYear(Date(year, 3, 1)) < DayOfYear(Date(year, 2, 31))
    ensures PrevDay(Date(year, 3, 1)) != Date(year, 2, 31)
  {
    RolloverClock(Date(year, 2, 31), 21, 59, -2.0);
    RolloverClock(Date(year, 2, 31), 22, 0, -2.0);
    assert DaysBeforeMonth(year, 2) == 31 + DaysInMonth(year, 2);
  }

  /** The library receives the year cut to 16 bits: year 40000 reaches it
      as -25536. */
  lemma YearCutToI16(julianDay: AstroDate -> real)
    ensures CalcJulianDay(julianDay, Date(40000, 6, 15), 12, 0, 0.0)
            == Some(julianDay(AstroDate(-25536, June, DayOfMonth(15, 12, 0))))
  {
    RolloverClock(Date(40000, 6, 15), 12, 0, 0.0);
  }

  /** A month in 1..12 never reaches the panic in `month_from_u8`, whatever
      the day, clock time and offset: stepping a day back or forward keeps
      the month in range, even from a day the month does not have. */
  lemma AcceptedInputsHaveJulianDay(julianDay: AstroDate -> real, d: Date, hour: U8, min: U8, offset: real)
    requires 1 <= d.month <= 12
    ensures CalcJulianDay(julianDay, d, hour, min, offset).Some?
  {
  }

  /** Half past midnight on 1 January at UTC+5 is 19:30 UTC on 31 December
      of the year before. */
  lemma NewYearRollback(year: int)
    ensures UtcDateTime(Date(year, 1, 1), 0, 30, 5.0) == (Date(year - 1, 12, 31), 19, 30)
  {
    var total := TotalHours(0, 30, 5.0);
    assert total == -4.5;
    assert (total + 24.0).Floor == 19;
    assert Fract(total + 24.0) == 0.5;
  }

  /** The thirteen bodies of a chart. */
  datatype HdPlanet = Sun | Earth | Moon | NorthNode | SouthNode | Mercury | Venus | Mars
                    | Jupiter | Saturn | Uranus | Neptune | Pluto

  /** `HdPlanet::all`: the order in which charts list the bodies. */
  function AllPlanets(): seq<HdPlanet> {
    [Sun, Earth, Moon, NorthNode, SouthNode, Mercury, Venus, Mars, Jupiter, Saturn, Uranus, Neptune, Pluto]
  }

  /** Every body appears in the list exactly once. */
  lemma AllPlanetsOnce(p: HdPlanet)
    ensures |AllPlanets()| == 13
    ensures p in AllPlanets()
    ensures forall i, j | 0 <= i < j < 13 :: AllPlanets()[i] != AllPlanets()[j]
  {
  }

  /** The library routines a chart needs, each giving an ecliptic longitude
      in degrees for a Julian day: the Sun, the Moon, the mean ascending
      node, and the geocentric longitude of Mercury to Pluto (the library
      converts their heliocentric coordinates using the Earth's). */
  datatype Ephemeris = Ephemeris(
    sun: real -> real,
    moon: real -> real,
    meanNode: real -> real,
    geocentric: (HdPlanet, real) -> real)

  datatype PlanetCalcResult = PlanetCalcResult(planet: HdPlanet, eclipticLng: real)

  /** Mercury to Pluto, in the order they are computed. */
  function OuterPlanets(): seq<HdPlanet> {
    [Mercury, Venus, Mars, Jupiter, Saturn, Uranus, Neptune, Pluto]
  }

  /** `calc_planet_positions`. */
  function CalcPlanetPositions(eph: Ephemeris, jd: real): (r: seq<PlanetCalcResult>)
    ensures |r| == 13
    ensures forall i | 0 <= i < 13 :: r[i].planet == AllPlanets()[i] && 0.0 <= r[i].eclipticLng < 360.0
    ensures r[0].eclipticLng == Normalize(eph.sun(jd)) && r[2].eclipticLng == Normalize(eph.moon(jd))
    ensures r[3].eclipticLng == Normalize(eph.meanNode(jd))
    ensures forall i | 5 <= i < 13 :: r[i].eclipticLng == Normalize(eph.geocentric(r[i].planet, jd))
    ensures r[1].eclipticLng == Normalize(r[0].eclipticLng + 180.0)
    ensures r[4].eclipticLng == Normalize(r[3].eclipticLng + 180.0)
  {
    var sunLng := Normalize(eph.sun(jd));
    var nodeLng := Normalize(eph.meanNode(jd));
    [ PlanetCalcResult(Sun, sunLng),
      PlanetCalcResult(Earth, Normalize(sunLng + 180.0)),
      PlanetCalcResult(Moon, Normalize(eph.moon(jd))),
      PlanetCalcResult(NorthNode, nodeLng),
      PlanetCalcResult(SouthNode, Normalize(nodeLng + 180.0)) ]
    + OuterPositions(eph, jd)
  }

  /** The loop over Mercury to Pluto. */
  function OuterPositions(eph: Ephemeris, jd: real): (r: seq<PlanetCalcResult>)
    ensures |r| == 8
    ensures forall i | 0 <= i < 8 :: r[i].planet == AllPlanets()[i + 5]
    ensures forall i | 0 <= i < 8 :: r[i].eclipticLng == Normalize(eph.geocentric(r[i].planet, jd))
  {
    assert AllPlanets()[5..] == OuterPlanets();
    seq(8, i requires 0 <= i < 8 =>
      PlanetCalcResult(OuterPlanets()[i], Normalize(eph.geocentric(OuterPlanets()[i], jd))))
  }

  /** Taking the opposite point twice returns to the start. */
  lemma OppositeInvolution(a: real)
    requires 0.0 <= a < 360.0
    ensures Normalize(Normalize(a + 180.0) + 180.0) == a
  {
    var b := Normalize(a + 180.0);
    var k := TurnsBetween(b, a + 180.0);
    WholeTurns(b + 180.0, a, k + 1);
    var c := Normalize(b + 180.0);
    var j := TurnsBetween(c, b + 180.0);
    WholeTurns(c, a, j + k + 1);
    CongruentInRangeUnique(c, a, a);
  }

  /** The wheel reads a longitude only through its normalised value. */
  lemma GateOfNormalized(x: real)
    ensures Wheel.DegreeToGate(Normalize(x)) == Wheel.DegreeToGate(x)
  {
    NormalizeIdempotent(x);
  }

  /** Earth sits 32 gates from the Sun on the same line, color, tone and
      base. */
  lemma EarthOppositeSun(eph: Ephemeris, jd: real)
    ensures var r := CalcPlanetPositions(eph, jd);
            var sun := Wheel.DegreeToGate(r[0].eclipticLng);
            var earth := Wheel.DegreeToGate(r[1].eclipticLng);
            && earth.line == sun.line && earth.color == sun.color && earth.tone == sun.tone && earth.base == sun.base
            && Wheel.BaseCount(r[1].eclipticLng) / 1080 == (Wheel.BaseCount(r[0].eclipticLng) / 1080 + 32) % 64
  {
    var r := CalcPlanetPositions(eph, jd);
    OppositeOf(r[0].eclipticLng, r[1].eclipticLng);
  }

  /** The South Node sits opposite the North Node in the same way. */
  lemma SouthNodeOppositeNorthNode(eph: Ephemeris, jd: real)
    ensures var r := CalcPlanetPositions(eph, jd);
            var north := Wheel.DegreeToGate(r[3].eclipticLng);
            var south := Wheel.DegreeToGate(r[4].eclipticLng);
            && south.line == north.line && south.color == north.color && south.tone == north.tone && south.base == north.base
            && Wheel.BaseCount(r[4].eclipticLng) / 1080 == (Wheel.BaseCount(r[3].eclipticLng) / 1080 + 32) % 64
  {
    var r := CalcPlanetPositions(eph, jd);
    OppositeOf(r[3].eclipticLng, r[4].eclipticLng);
  }

  lemma OppositeOf(a: real, b: real)
    requires b == Normalize(a + 180.0)
    ensures var p := Wheel.DegreeToGate(a);
            var q := Wheel.DegreeToGate(b);
            && q.line == p.line && q.color == p.color && q.tone == p.tone && q.base == p.base
            && Wheel.BaseCount(b) / 1080 == (Wheel.BaseCount(a) / 1080 + 32) % 64
  {
    Wheel.Opposite(a);
    GateOfNormalized(a + 180.0);
    NormalizeIdempotent(a + 180.0);
    assert Wheel.BaseCount(b) == Wheel.BaseCount(a + 180.0);
  }

  /** The Sun's longitude the design date is searched for: 88° before the
      birth Sun. */
  function DesignTarget(birthSunLng: real): (t: real)
    ensures 0.0 <= t < 360.0
    ensures Congruent(t + 88.0, birthSunLng)
  {
    var t := Normalize(birthSunLng - 88.0);
    ShiftBoth(t, birthSunLng - 88.0, 88.0);
    t
  }

  /** The difference from `current` to `target`, moved by a turn when it is
      more than half a turn. For normalised longitudes it lies in
      [-180, 180]. */
  function WrapDiff(target: real, current: real): (d: real)
    ensures 0.0 <= target < 360.0 && 0.0 <= current < 360.0 ==> -180.0 <= d <= 180.0
  {
    var diff := target - current;
    var once := if diff > 180.0 then diff - 360.0 else diff;
    if once < -180.0 then once + 360.0 else once
  }

  /** The wrapped difference still measures the same arc. */
  lemma WrapDiffCongruent(target: real, current: real)
    ensures Congruent(WrapDiff(target, current), target - current)
  {
    var diff := target - current;
    WholeTurns(WrapDiff(target, current), diff,
               if diff > 180.0 then -1 else if diff < -180.0 then 1 else 0);
  }

  /** No other value congruent to the difference is closer to zero. */
  lemma WrapDiffShortest(target: real, current: real, e: real)
    requires 0.0 <= target < 360.0 && 0.0 <= current < 360.0
    requires Congruent(e, target - current)
    ensures Abs(WrapDiff(target, current)) <= Abs(e)
  {
    var d := WrapDiff(target, current);
    WrapDiffCongruent(target, current);
    var k := TurnsBetween(e, target - current);
    var j := TurnsBetween(d, target - current);
    assert e - d == 360.0 * ((k - j) as real);
    if k - j > 0 {
      assert e - d >= 360.0;
    } else if k - j < 0 {
      assert e - d <= -360.0;
    }
  }

  /** The Sun's normalised longitude at a Julian day. */
  function SunAt(eph: Ephemeris, jd: real): (lng: real)
    ensures 0.0 <= lng < 360.0
  {
    Normalize(eph.sun(jd))
  }

  /** Close enough to stop: the Sun is within 0.0001° of the target. */
  predicate Converged(eph: Ephemeris, target: real, jd: real) {
    Abs(WrapDiff(target, SunAt(eph, jd))) < 0.0001
  }

  /** The search as a recursion on the corrections left: the Julian day it
      stops at and how many corrections it had left then. It stops early
      exactly when it has converged. */
  function DesignSearch(eph: Ephemeris, target: real, jd: real, fuel: nat): (r: (real, nat))
    requires 0.0 <= target < 360.0
    ensures r.1 <= fuel
    ensures r.1 > 0 ==> Converged(eph, target, r.0)
    decreases fuel
  {
    if fuel == 0 then (jd, 0)
    else
      var diff := WrapDiff(target, SunAt(eph, jd));
      if Abs(diff) < 0.0001 then (jd, fuel)
      else DesignSearch(eph, target, jd + diff / 0.9856, fuel - 1)
  }

  /** A search that starts converged stays where it is. */
  lemma SearchStopsAtOnce(eph: Ephemeris, target: real, jd: real, fuel: nat)
    requires 0.0 <= target < 360.0 && fuel > 0 && Converged(eph, target, jd)
    ensures DesignSearch(eph, target, jd, fuel) == (jd, fuel)
  {
  }

  /** `find_design_jd`: start 89.3 days before birth and apply at most 50
      corrections toward the Sun 88° before the birth Sun. */
  method FindDesignJd(eph: Ephemeris, birthJd: real, birthSunLng: real) returns (jd: real)
    ensures jd == DesignSearch(eph, DesignTarget(birthSunLng), birthJd - 89.3, 50).0
    ensures Abs(jd - (birthJd - 89.3)) * 0.9856 <= 50.0 * 180.0
  {
    jd := Refine(eph, DesignTarget(birthSunLng), birthJd - 89.3, 50);
  }

  /** The correction loop of `find_design_jd` with its bound as a
      parameter: each round wraps the Sun's difference from the target into
      [-180, 180], stops once it is below 0.0001°, and otherwise moves the
      date by the difference over 0.9856°/day. */
  method Refine(eph: Ephemeris, target: real, start: real, rounds: nat) returns (jd: real)
    requires 0.0 <= target < 360.0
    ensures jd == DesignSearch(eph, target, start, rounds).0
    ensures Abs(jd - start) * 0.9856 <= (rounds as real) * 180.0
  {
    SearchDrift(eph, target, start, rounds);
    jd := start;
    ghost var outcome := DesignSearch(eph, target, jd, rounds);
    var left := rounds;
    while left > 0
      invariant DesignSearch(eph, target, jd, left) == outcome
    {
      var done, next := Correction(eph, target, jd);
      if done {
        SearchStopsAtOnce(eph, target, jd, left);
        break;
      }
      SearchStep(eph, target, jd, next, left, outcome);
      jd, left := next, left - 1;
    }
  }

  /** One round of the loop: wrap the Sun's difference from the target into
      [-180, 180], report convergence below 0.0001°, and otherwise the date
      moved by the difference over 0.9856°/day. */
  method Correction(eph: Ephemeris, target: real, jd: real) returns (done: bool, next: real)
    requires 0.0 <= target < 360.0
    ensures done <==> Converged(eph, target, jd)
    ensures next == jd + WrapDiff(target, SunAt(eph, jd)) / 0.9856
    ensures -180.0 <= (next - jd) * 0.9856 <= 180.0
    ensures Congruent((next - jd) * 0.9856, target - SunAt(eph, jd))
    ensures forall e | Congruent(e, target - SunAt(eph, jd)) :: Abs((next - jd) * 0.9856) <= Abs(e)
    ensures done <==> Abs((next - jd) * 0.9856) < 0.0001
  {
    var currentLng := SunAt(eph, jd);
    var diff := target - currentLng;
    if diff > 180.0 {
      diff := diff - 360.0;
    }
    if diff < -180.0 {
      diff := diff + 360.0;
    }
    done := Abs(diff) < 0.0001;
    next := jd + diff / 0.9856;
    assert diff == WrapDiff(target, currentLng);
    assert (next - jd) * 0.9856 == diff;
    WrapDiffCongruent(target, currentLng);
    forall e | Congruent(e, target - currentLng) ensures Abs(diff) <= Abs(e) {
      WrapDiffShortest(target, currentLng, e);
    }
  }

  /** One correction of a search that has not converged leads to the same
      outcome with one correction fewer. */
  lemma SearchStep(eph: Ephemeris, target: real, jd: real, next: real, fuel: nat, outcome: (real, nat))
    requires 0.0 <= target < 360.0 && fuel > 0
    requires DesignSearch(eph, target, jd, fuel) == outcome
    requires !Converged(eph, target, jd)
    requires next == jd + WrapDiff(target, SunAt(eph, jd)) / 0.9856
    ensures DesignSearch(eph, target, next, fuel - 1) == outcome
  {
  }

  /** Each correction moves the date by at most half a turn of solar arc
      at 0.9856°/day, so the search ends within that many days per
      correction used of where it started. */
  lemma {:induction false} SearchDrift(eph: Ephemeris, target: real, jd: real, fuel: nat)
    requires 0.0 <= target < 360.0
    ensures var r := DesignSearch(eph, target, jd, fuel);
            Abs(r.0 - jd) * 0.9856 <= ((fuel - r.1) as real) * 180.0
    decreases fuel
  {
    if fuel > 0 {
      var diff := WrapDiff(target, SunAt(eph, jd));
      if Abs(diff) >= 0.0001 {
        var next := jd + diff / 0.9856;
        SearchDrift(eph, target, next, fuel - 1);
        var r := DesignSearch(eph, target, next, fuel - 1);
        assert Abs(next - jd) * 0.9856 <= 180.0;
      }
    }
  }
}
