# HD-cli core in Dafny

This project models the deterministic core of HD-cli, a command-line calculator for Human Design charts, and proves properties of it. Four parts are modelled:

- **Body graph.** The nine centers, their motor flag and the partition of the 64 gates among them. The static table of 39 channels, the filter that keeps the channels whose two gates are both active, and de-duplication by unordered gate pair. Defined centers, the type (including the depth-first search from Throat to a motor), the authority priority list, the profile key and its cross angle, and the choice of an incarnation-cross key.
- **Wheel.** The mapping from an ecliptic longitude to gate, line, color, tone and base. It is modelled over exact reals, level by level as the program subdivides (gate, then line, color, tone and base, each with its clamp), and proved equal to the mixed-radix reading of a single count of bases (1/192°). The 30° zodiac partition is modelled too.
- **Astronomy driver.** Month lengths, the previous and next day, angle normalisation, the midnight rollover that turns local time into the UTC date handed to the Julian-day routine, the order of the thirteen bodies with the Earth/Sun and South/North Node identities, and the capped, wrap-corrected search for the design date. Every astronomy-library routine is a function parameter (`AstroCalc.Ephemeris`, and the `julianDay` parameter of `AstroCalc.CalcJulianDay`).
- **Input validators.** `parse_date`, `parse_time` and the range check of `parse_utc_offset`, with the offset as an `f64` value (finite, NaN or infinite). Rust's `str::split`, `u8` parsing and `i32` parsing are modelled on `seq<char>`.

Files:

- `wrappers.dfy`: `Option`, `Result`.
- `collections.dfy`: distinctness, ascending order, subsequences, counting.
- `decimal.dfy`: decimal text of naturals.
- `dedup.dfy`: first-occurrence de-duplication by key.
- `arith.dfy`: Rust casts, integer and real facts.
- `angles.dfy`: truncating remainder, normalisation.
- `centers.dfy`, `channels.dfy`, `wheel.dfy`, `calendar.dfy`, `astro.dfy`, `bodygraph.dfy`, `cli.dfy`: the program's modules, one per source component.

## Model

| member | source | states |
|---|---|---|
| Centers.All | src/data/centers.rs:17-29 | the center list has nine entries, no two alike |
| Centers.EveryCenterListed | src/data/centers.rs:17-29 | every one of the nine centers appears in the list and in the set |
| Centers.KeyInjective | src/data/centers.rs:32-44 | two centers share a lookup key iff they are the same center |
| Centers.MotorCenters | src/data/centers.rs:47-49 | the motors among all centers are exactly Sacral, Heart, Solar Plexus and Root; Throat is not one |
| Centers.GateListsPartition | src/data/centers.rs:54-66 | the nine gate lists together hold 64 gates, exactly the numbers 1..64, none twice |
| Centers.GateListsDisjoint | src/data/centers.rs:54-66 | no gate lies in the lists of two different centers |
| Centers.GateListNoDuplicates | src/data/centers.rs:54-66 | no center's list names a gate twice |
| Centers.CenterOf | src/data/centers.rs:54-66 | every gate 1..64 has exactly one center, the one whose list holds it; other numbers have none |
| Channels.KeyIdentifiesGatePair | src/data/channels.rs:14-20 | two channels have the same "lo-hi" key iff they join the same unordered pair of gates |
| Channels.KeySymmetric | src/data/channels.rs:14-20 | swapping a channel's two gates (and centers) leaves its key unchanged |
| Channels.SamePairSameCenters | src/data/channels.rs:28-73 | two well-placed rows over the same unordered gate pair (equivalently, with one key) join the same unordered pair of centers |
| Channels.FindActiveChannels | src/data/channels.rs:78-85 | a table row is kept iff both its gates are active; the result keeps table order |
| Channels.UniqueChannels | src/data/channels.rs:88-94 | the result is an order-preserving subsequence of the input with pairwise distinct keys and the same set of keys |
| Channels.UniqueKeepsFirst | src/data/channels.rs:88-94 | a kept row is the first row of the input with that key |
| Channels.UniqueIdempotent | src/data/channels.rs:88-94 | de-duplicating twice gives the same list as once |
| Channels.TableUniqueRows | src/data/channels.rs:24-75 | the table has 39 rows; de-duplication keeps 35 of them, dropping exactly rows 26, 27, 28 and 32 |
| Channels.TableRowsWellPlaced | src/data/channels.rs:28-73 | in every row, gate A lies in center A's list and gate B in center B's |
| Channels.UniqueKeepsEndpoints | src/data/channels.rs:88-94 | for well-placed rows, de-duplication never changes the set of centers the channels touch |
| Wheel.GateOrderIsPermutation | src/data/gates.rs:9-18 | the wheel order lists each gate 1..64 exactly once |
| Wheel.DegreeToGate | src/data/gates.rs:44-97 | for every longitude: gate in 1..64, line, color and tone in 1..6, base in 1..5, and the degree is the longitude brought into [0,360) |
| Wheel.DegreeToGateDigits | src/data/gates.rs:58-87 | the result is the mixed-radix reading (64, 6, 6, 6, 5) of the whole bases past 302°, so none of the min clamps ever changes a value |
| Wheel.DegreeToGatePeriodic | src/data/gates.rs:46-56 | adding any whole number of turns to the longitude does not change the result |
| Wheel.WheelStart | src/data/gates.rs:20-21 | 302° is gate 41, line 1, color 1, tone 1, base 1 |
| Wheel.Reconstruction | src/data/gates.rs:58-87 | the offset from 302° equals the start of the cell named by wheel index, line, color, tone and base, plus less than one base |
| Wheel.GateCell | src/data/gates.rs:52-59 | a longitude lies in gate GATE_ORDER[i] iff its offset from 302° lies in the i-th 5.625° cell |
| Wheel.Opposite | src/data/gates.rs:44-97 | the point half a turn away is 32 wheel places further on, with the same line, color, tone and base |
| Wheel.DegreeToZodiac | src/data/gates.rs:107-115 | the degrees inside the sign lie in [0,30) |
| Wheel.ZodiacOfSpan | src/data/gates.rs:101-115 | a longitude in the k-th 30° span is in the k-th sign, that many degrees into it; the index never wraps |
| Angles.Normalize | src/astro_calc.rs:264-270 | the result lies in [0,360) and differs from the input by whole turns |
| Angles.NormalizeIsEuclidean | src/astro_calc.rs:264-270 | the truncating-remainder construction equals the Euclidean d - 360·floor(d/360) |
| Angles.NormalizePeriodic | src/astro_calc.rs:264-270 | whole turns added to the input do not change the result |
| Angles.NormalizeIdempotent | src/astro_calc.rs:264-270 | normalising twice is normalising once |
| Calendar.DaysInMonth | src/astro_calc.rs:181-194 | every month, in range or not, has 28 to 31 days |
| Calendar.LongMonths | src/astro_calc.rs:181-194 | a month has 31 days iff it is 1, 3, 5, 7, 8, 10 or 12 |
| Calendar.February | src/astro_calc.rs:185-191 | 29 days iff February of a Gregorian leap year, 28 iff February of another year; every other month has at least 30 |
| Calendar.YearLength | src/astro_calc.rs:181-194 | the twelve months add up to 366 days in a leap year and 365 otherwise |
| Calendar.PrevDay | src/astro_calc.rs:158-168 | a later day only loses one; the first of a later month goes to the last day of the previous month; 1 January goes to 31 December of the year before |
| Calendar.NextDay | src/astro_calc.rs:170-179 | a day before the month's end only gains one; the last day of months 1..11 goes to the first of the next; the end of December goes to 1 January of the next year |
| Calendar.StepsKeepValid | src/astro_calc.rs:158-179 | both steps take a real calendar day to a real calendar day |
| Calendar.NextOfPrev | src/astro_calc.rs:158-179 | on real calendar days the next day of the previous day is the day itself |
| Calendar.PrevOfNext | src/astro_calc.rs:158-179 | on real calendar days the previous day of the next day is the day itself |
| Calendar.NextDayCountsOn | src/astro_calc.rs:170-179 | within a year, the day after a real calendar day has the next day-of-year number |
| Calendar.MonthFromU8 | src/astro_calc.rs:6-22 | the lookup succeeds iff the number is in 1..12 |
| Calendar.MonthRoundTrip | src/astro_calc.rs:6-22 | the lookup and the month number are inverse to each other |
| AstroCalc.CalcJulianDay | src/astro_calc.rs:83-156 | a Julian day is produced iff the UTC date's month is in 1..12, and it is the library's value for the UTC date, hour and minute with the year cut to `i16` |
| AstroCalc.RolloverClock | src/astro_calc.rs:85-155 | for any date, real or not, and any accepted clock time and offset: the previous day is taken when the total is negative, the next day at 24 hours or more, else the local date; the UTC hour is ≤ 23 and minute ≤ 59; the UTC clock shifted by the days crossed is the local clock minus the offset, to the minute |
| AstroCalc.YearCutToI16 | src/astro_calc.rs:149-155 | year 40000 reaches the library as -25536 |
| AstroCalc.Rollover | src/astro_calc.rs:100-155 | on a real calendar day the UTC date is a real day too; when midnight is crossed backwards its next day is the local date, when crossed forwards its previous day is, otherwise it is the local date |
| AstroCalc.AcceptedInputsHaveJulianDay | src/astro_calc.rs:100-155 | with a month in 1..12 the rollover never produces a month outside 1..12, whatever the day, time and offset |
| AstroCalc.NewYearRollback | src/astro_calc.rs:100-123 | 00:30 on 1 January at UTC+5 is 19:30 on 31 December of the previous year |
| AstroCalc.FebruaryThirtyFirstStepsBack | src/astro_calc.rs:100-147 | on 31 February at UTC-2, 21:59 local is UTC day 62 of the year at 23:59, but 22:00 local is UTC 1 March 00:00, an earlier day of the year, and the day before 1 March is not the local date |
| AstroCalc.AllPlanetsOnce | src/astro_calc.rs:63-79 | the body list has thirteen entries, contains every body, and no body twice |
| AstroCalc.CalcPlanetPositions | src/astro_calc.rs:204-262 | thirteen results in body-list order, each longitude in [0,360); each comes from its library routine; Earth is the Sun plus 180° and the South Node the North Node plus 180°, normalised |
| AstroCalc.OppositeInvolution | src/astro_calc.rs:218-232 | taking the opposite point twice returns to the start |
| AstroCalc.EarthOppositeSun | src/astro_calc.rs:215-219 | Earth lies 32 wheel places after the Sun, on the Sun's line, color, tone and base |
| AstroCalc.SouthNodeOppositeNorthNode | src/astro_calc.rs:229-232 | the South Node lies 32 wheel places after the North Node, on the same line, color, tone and base |
| AstroCalc.DesignTarget | src/astro_calc.rs:276 | the target lies in [0,360) and is 88° before the birth Sun, up to whole turns |
| AstroCalc.WrapDiff | src/astro_calc.rs:287-294 | for longitudes in [0,360) the wrapped difference lies in [-180,180] |
| AstroCalc.WrapDiffCongruent | src/astro_calc.rs:287-294 | the wrapped difference differs from the plain difference by whole turns |
| AstroCalc.WrapDiffShortest | src/astro_calc.rs:287-294 | no value congruent to the difference is closer to zero than the wrapped one |
| AstroCalc.DesignSearch | src/astro_calc.rs:283-303 | the search never uses more corrections than allowed, and when it stops early the Sun is within 0.0001° of the target |
| AstroCalc.SearchStopsAtOnce | src/astro_calc.rs:296-298 | a search that starts converged stops at its start without correcting |
| AstroCalc.Correction | src/astro_calc.rs:285-301 | one round moves the date by an arc of solar motion (at 0.9856°/day) that lies in [-180,180], is congruent to target minus current Sun, and is no longer than any other congruent arc; it reports convergence iff that arc is below 0.0001° |
| AstroCalc.Refine | src/astro_calc.rs:280-304 | the loop ends where the capped search ends, within 180/0.9856 days per allowed correction of its start |
| AstroCalc.SearchDrift | src/astro_calc.rs:283-303 | each correction used moves the date by at most half a turn of solar arc |
| AstroCalc.FindDesignJd | src/astro_calc.rs:274-305 | the design date is the outcome of at most 50 corrections from 89.3 days before birth, and lies within 50·180/0.9856 days of that start |
| BodyGraph.AscendingListingUnique | src/calc.rs:52-53 | two strictly ascending lists with the same elements are equal, so sort followed by dedup has one possible result |
| BodyGraph.ActiveGates | src/calc.rs:45-54 | the active gates are strictly ascending, and a gate is listed iff some personality or design position has it |
| BodyGraph.FindDefinedCenters | src/calc.rs:420-427 | a center is defined iff it is one of the two centers of some channel in the list |
| BodyGraph.NothingDefinedIffNoChannels | src/calc.rs:420-427 | no center is defined iff there are no channels |
| BodyGraph.DedupKeepsDefinedCenters | src/calc.rs:57-58 | removing repeated gate pairs from the active channels never changes the defined centers |
| BodyGraph.HasMotorToThroatConnection | src/calc.rs:450-481 | the search answers true iff Throat is defined and a motor other than Throat is reachable from it over channels into defined centers; false whenever Throat is undefined |
| BodyGraph.PushNeighbours | src/calc.rs:466-475 | pushing keeps the stack, pushes only reachable centers, and pushes every defined center one channel away |
| BodyGraph.DetermineType | src/calc.rs:430-448 | reflector iff nothing is defined; manifesting generator iff Sacral is defined with a motor-to-throat connection; generator iff Sacral without one; manifestor iff the connection without Sacral; projector otherwise |
| BodyGraph.DetermineAuthority | src/calc.rs:484-500 | lunar iff none of Solar Plexus, Sacral, Spleen, Heart, G and Throat is defined; otherwise the authority of the first defined one in that order |
| BodyGraph.ProfileKeyInjective | src/calc.rs:87 | two profile keys are equal iff both Sun lines are equal |
| BodyGraph.AngleOfLines | src/calc.rs:97-102 | 4/1 is juxtaposition; 5/1, 5/2, 6/2 and 6/3 are left angle; every other pair of lines is right angle |
| BodyGraph.FindCrossKey | src/calc.rs:514-532 | none iff the gate is unknown or has no crosses; otherwise the first key containing the angle, or else the first key |
| Cli.Split | src/cli.rs:62 | at least one part, no part contains the separator, and the parts joined with it give back the input |
| Cli.SplitJoin | src/cli.rs:62 | splitting undoes joining parts that do not contain the separator |
| Cli.ParseU8Text | src/cli.rs:67-68 | the decimal text of a byte, zero-padded or with a leading plus, parses back to it |
| Cli.ParseI32Text | src/cli.rs:66 | the decimal text of a number, and of its negation, parses back to it |
| Cli.ParseDate | src/cli.rs:61-77 | a format error iff there are not exactly three parts; success iff the parts parse and month is in 1..12 and day in 1..31, with the fields equal to the parsed parts |
| Cli.ParseDateRoundTrip | src/cli.rs:61-77 | every written date with a year ≥ 0, month 1..12 and day 1..31 parses back to its fields |
| Cli.NegativeYearRejected | src/cli.rs:62-65 | a leading minus adds a fourth part, so a negative year is always a format error |
| Cli.DayNotCheckedAgainstMonth | src/cli.rs:70-75 | a day past the end of its month is accepted, though the date does not exist |
| Cli.FebruaryThirtyFirstAccepted | src/cli.rs:70-75 | 31 February is accepted in every year |
| Cli.ParseTime | src/cli.rs:80-95 | a format error iff there are not exactly two parts; success iff both parts parse with hour ≤ 23 and minute ≤ 59, with the fields equal to the parsed parts |
| Cli.ParseTimeRoundTrip | src/cli.rs:80-95 | every time written as HH:MM with hour ≤ 23 and minute ≤ 59 parses back to its fields |
| Cli.ParseUtcOffset | src/cli.rs:99-107 | success iff a number was read and it is NaN or a finite value in [-12,14]; the result is that number; the infinities are refused |
| Cli.NaNOffsetAccepted | src/cli.rs:103-106 | NaN passes the range check; both infinities are refused |
| Cli.ParseFiniteOffset | src/cli.rs:99-107 | the evidently intended check: success iff a finite number in [-12,14] was read, and the result is that number |
| Cli.FiniteOffsetAgrees | src/cli.rs:103-106 | the intended check accepts exactly what the program's check accepts, with the same value, on every input except NaN, which it refuses |
| Cli.ParseCalendarDate | src/cli.rs:62-77 | the evidently intended date check: success iff the program's check succeeds and the date is a real calendar day, with the same fields |
| Cli.FebruaryThirtyFirstRefused | src/cli.rs:70-75 | the intended date check refuses 31 February in every year |
| Cli.AcceptedInputs | src/cli.rs:62-107 | with the intended checks, every accepted date, time and offset has a UTC date that is a real calendar day one step from the local date when midnight is crossed, and gets a Julian day |
| Cli.AcceptedDateHasJulianDay | src/cli.rs:61-77 | every accepted date, including one past the end of its month, gets a Julian day for any time and offset |

## Left out

- The astronomy library (`sun::geocent_ecl_pos`, `lunar::*`, `planet::heliocent_coords`, `geocent_geomet_ecl_coords`, `pluto::heliocent_pos`, `time::decimal_day`, `time::julian_day`): foreign numeric series. They are the function fields of `AstroCalc.Ephemeris` and the `julianDay` parameter, so no property depends on their values.
- Convergence of the design-date search: it depends on the Sun's motion in the library. Only the cap, the stopping rule and the drift bound are proved.
- IEEE-754 behaviour: angles and hours are exact reals. Rounding cases such as `deg % 360` rounding up to 360.0, a clamp firing from float error, and the 2-decimal rounding of output longitudes are not modelled.
- The seconds and time-zone fields of the library's `DayOfMonth`: they are always 0 and are not modelled.
- The `i32` year of `prev_day` and `next_day` is an unbounded integer: wrap-around at the `i32` limits is not modelled. The cast of the UTC year to `i16` is modelled (`Arith.WrapI16`).
- Cli.ParseUtcOffset: takes the already-read number as `Option<Cli.F64>` (finite, NaN or infinite), because the trim and float-text parsing of `f64::from_str` are not modelled. Only the range check is, including that NaN passes it (see Findings).
- What NaN does after the validator: the UTC conversion takes the offset as an exact real, so the NaN path through `calc_julian_day` (neither rollover branch, hour and minute cast to 0) is not modelled.
- The text of the error messages (Russian strings): replaced by the `Cli.InputError` cases, which carry the same information.
- `build_chart`'s text assembly: database lookups, translated strings, the variable and motivation blocks, `determine_strategy_localized` and `zodiac_symbol_from_key`. `BodyGraph.FindCrossKey` takes a gate's cross list as a map argument instead of the embedded database.
- `src/data/database.rs`, `src/models.rs`, `src/config.rs`, `src/main.rs`, `src/lib.rs`, `build.rs`, the benchmarks and the load-test example: serialisation, file I/O, process exit, downloads and parallelism, with no chart logic.
- The rest of `src/cli.rs`: table and colour rendering, terminal width, text wrapping, JSON and YAML output.
- The header comments of `src/data/channels.rs` (lines 1 and 23) speak of 36 channels. The table has 39 rows and 35 distinct gate pairs (`Channels.TableUniqueRows`), so the model follows the table.

## Findings

| source | as written | input that shows it | evidently intended | confidence | as-written member | corrected member |
|---|---|---|---|---|---|---|
| src/cli.rs:70-75 | the day is checked only against 1..31, so a day past the end of its month reaches `calc_julian_day`, where `next_day` jumps from it to the 1st of the next month | date 2023-02-31 with offset -2: 21:59 local becomes UTC 02-31 23:59, day 62 of the year; 22:00 local becomes UTC 03-01 00:00, day 60 | only real calendar days accepted, so the UTC date is always one day from the local date across midnight | medium, not executed | Cli.FebruaryThirtyFirstAccepted, AstroCalc.FebruaryThirtyFirstStepsBack | Cli.ParseCalendarDate, Cli.AcceptedInputs |
| src/cli.rs:103-106 | the range test `offset < -12.0 \|\| offset > 14.0` is false for NaN, so NaN is returned as a valid offset | offset text "NaN" | only finite offsets in [-12, 14] accepted | high, not executed | Cli.NaNOffsetAccepted | Cli.ParseFiniteOffset, Cli.FiniteOffsetAgrees |
