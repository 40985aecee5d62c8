/** The command line's input validators: a date `YYYY-MM-DD`, a time
    `HH:MM` and the range check on a UTC offset. */
module Cli {
  import opened Wrappers
  import opened Decimal
  import opened Calendar
  import AstroCalc

  // ---------------------------------------------------------------------
  // Splitting

  /** Rust's `str::split` on one character: the pieces between separators,
      always at least one (the empty string splits into one empty piece). */
  function Split(s: string, sep: char): (parts: seq<string>)
    ensures |parts| >= 1
    ensures forall i | 0 <= i < |parts| :: sep !in parts[i]
    ensures Join(parts, sep) == s
  {
    if |s| == 0 then [""]
    else
      var rest := Split(s[1..], sep);
      if s[0] == sep then
        [""] + rest
      else
        assert Join(rest, sep) == rest[0] + (if |rest| == 1 then [] else [sep] + Join(rest[1..], sep));
        [[s[0]] + rest[0]] + rest[1..]
  }

  /** The pieces glued back together with the separator. */
  function Join(parts: seq<string>, sep: char): string
    requires |parts| >= 1
  {
    if |parts| == 1 then parts[0] else parts[0] + [sep] + Join(parts[1..], sep)
  }

  /** A piece without the separator followed by the separator splits off
      as the first part. */
  lemma {:induction false} SplitAfterPiece(x: string, rest: string, sep: char)
    requires sep !in x
    ensures Split(x + [sep] + rest, sep) == [x] + Split(rest, sep)
    decreases |x|
  {
    var s := x + [sep] + rest;
    if |x| == 0 {
      assert s[1..] == rest;
    } else {
      assert s[1..] == x[1..] + [sep] + rest;
      SplitAfterPiece(x[1..], rest, sep);
      assert [x[0]] + x[1..] == x;
    }
  }

  lemma {:induction false} SplitWithoutSeparator(x: string, sep: char)
    requires sep !in x
    ensures Split(x, sep) == [x]
    decreases |x|
  {
    if |x| > 0 {
      SplitWithoutSeparator(x[1..], sep);
      assert [x[0]] + x[1..] == x;
    }
  }

  /** Splitting undoes joining pieces that do not contain the separator. */
  lemma {:induction false} SplitJoin(parts: seq<string>, sep: char)
    requires |parts| >= 1
    requires forall i | 0 <= i < |parts| :: sep !in parts[i]
    ensures Split(Join(parts, sep), sep) == parts
    decreases |parts|
  {
    if |parts| == 1 {
      SplitWithoutSeparator(parts[0], sep);
    } else {
      SplitJoin(parts[1..], sep);
      SplitAfterPiece(parts[0], Join(parts[1..], sep), sep);
      assert parts == [parts[0]] + parts[1..];
    }
  }

  lemma JoinThree(x: string, y: string, z: string, sep: char)
    ensures Join([x, y, z], sep) == x + [sep] + y + [sep] + z
  {
    assert [x, y, z][1..] == [y, z];
    assert [y, z][1..] == [z];
    assert Join([y, z], sep) == y + [sep] + z;
    assert Join([x, y, z], sep) == x + [sep] + (y + [sep] + z);
  }

  // ---------------------------------------------------------------------
  // Integer parsing

  /** `s` without one leading `+`, if it has one. */
  function DropPlus(s: string): string {
    if |s| > 0 && s[0] == '+' then s[1..] else s
  }

  /** Rust's `str::parse::<u8>`: an optional `+` and at least one decimal
      digit, worth at most 255; leading zeros are allowed. */
  function ParseU8(s: string): (r: Option<U8>)
    ensures r.Some? ==> |DropPlus(s)| >= 1 && AllDigits(DropPlus(s)) && r.value == Value(DropPlus(s))
  {
    var digits := DropPlus(s);
    if |digits| == 0 || !AllDigits(digits) then None
    else if Value(digits) > 255 then None
    else Some(Value(digits))
  }

  /** Rust's `str::parse::<i32>`: an optional sign and at least one decimal
      digit, within the 32-bit two's-complement range. */
  function ParseI32(s: string): (r: Option<int>)
    ensures r.Some? ==> -0x8000_0000 <= r.value < 0x8000_0000
  {
    var negative := |s| > 0 && s[0] == '-';
    var digits := if negative then s[1..] else DropPlus(s);
    if |digits| == 0 || !AllDigits(digits) then None
    else
      var v: int := if negative then 0 - Value(digits) else Value(digits);
      if v < -0x8000_0000 || v >= 0x8000_0000 then None else Some(v)
  }

  /** The decimal text of a byte, with or without zero padding and an
      explicit `+`, parses back to the byte; so do the text of a number and
      of its negation as `i32`. */
  lemma ParseU8Text(n: U8, w: nat)
    ensures ParseU8(ZeroPadded(n, w)) == Some(n)
    ensures ParseU8("+" + ZeroPadded(n, w)) == Some(n)
  {
    var t := ZeroPadded(n, w);
    assert |t| >= 1;
    assert ("+" + t)[1..] == t;
  }

  lemma ParseI32Text(n: nat)
    requires n < 0x8000_0000
    ensures ParseI32(NatToString(n)) == Some(n)
    ensures ParseI32("-" + NatToString(n)) == Some(0 - n)
  {
    assert ("-" + NatToString(n))[1..] == NatToString(n);
  }

  /** Text without digits, or a byte value over 255, does not parse. */
  lemma ParseU8Rejects(s: string)
    ensures |DropPlus(s)| == 0 ==> ParseU8(s) == None
    ensures (exists i | 0 <= i < |DropPlus(s)| :: !IsDigit(DropPlus(s)[i])) ==> ParseU8(s) == None
    ensures ParseU8(s).Some? ==> ParseU8(s).value <= 255
  {
  }

  // ---------------------------------------------------------------------
  // Validators

  /** What went wrong with an input; the program's messages carry the same
      information as text. */
  datatype InputError =
    | DateFormat | BadYear | BadMonth | BadDay
    | MonthOutOfRange(month: U8) | DayOutOfRange(day: U8)
    | TimeFormat | BadHour | BadMinute
    | HourOutOfRange(hour: U8) | MinuteOutOfRange(min: U8)
    | BadOffset | OffsetOutOfRange(offset: F64)
    | DayPastMonthEnd(day: U8)

  /** An `f64` as `str::parse` can return it: a finite number, NaN, or an
      infinity. */
  datatype F64 = Finite(value: real) | NaN | Infinity(negative: bool)

  /** IEEE-754 `x < bound` for a finite bound: false whenever `x` is NaN. */
  predicate Below(x: F64, bound: real) {
    match x
    case Finite(v) => v < bound
    case NaN => false
    case Infinity(negative) => negative
  }

  /** IEEE-754 `x > bound` for a finite bound: false whenever `x` is NaN. */
  predicate Above(x: F64, bound: real) {
    match x
    case Finite(v) => v > bound
    case NaN => false
    case Infinity(negative) => !negative
  }

  /** `parse_date`: three `-`-separated parts, an `i32` year, a `u8` month
      in 1..12 and a `u8` day in 1..31; the first failing check names the
      error. */
  function ParseDate(s: string): (r: Result<(int, U8, U8), InputError>)
    ensures r == Err(DateFormat) <==> |Split(s, '-')| != 3
    ensures r.Ok? ==>
              var parts := Split(s, '-');
              && |parts| == 3
              && ParseI32(parts[0]) == Some(r.value.0)
              && ParseU8(parts[1]) == Some(r.value.1)
              && ParseU8(parts[2]) == Some(r.value.2)
              && 1 <= r.value.1 <= 12 && 1 <= r.value.2 <= 31
    ensures r.Ok? <==>
              var parts := Split(s, '-');
              && |parts| == 3
              && ParseI32(parts[0]).Some?
              && ParseU8(parts[1]).Some? && 1 <= ParseU8(parts[1]).value <= 12
              && ParseU8(parts[2]).Some? && 1 <= ParseU8(parts[2]).value <= 31
  {
    var parts := Split(s, '-');
    if |parts| != 3 then Err(DateFormat)
    else
      match (ParseI32(parts[0]), ParseU8(parts[1]), ParseU8(parts[2]))
      case (None, _, _) => Err(BadYear)
      case (_, None, _) => Err(BadMonth)
      case (_, _, None) => Err(BadDay)
      case (Some(year), Some(month), Some(day)) =>
        if month < 1 || month > 12 then Err(MonthOutOfRange(month))
        else if day < 1 || day > 31 then Err(DayOutOfRange(day))
        else Ok((year, month, day))
  }

  /** A date written the way the program documents it. */
  function FormatDate(year: nat, month: U8, day: U8): string {
    NatToString(year) + "-" + ZeroPadded(month, 2) + "-" + ZeroPadded(day, 2)
  }

  /** Every written date with a non-negative year, a month 1..12 and a day
      1..31 parses back to its fields. */
  lemma ParseDateRoundTrip(year: nat, month: U8, day: U8)
    requires year < 0x8000_0000 && 1 <= month <= 12 && 1 <= day <= 31
    ensures ParseDate(FormatDate(year, month, day)) == Ok((year, month, day))
  {
    var y := NatToString(year);
    var m := ZeroPadded(month, 2);
    var d := ZeroPadded(day, 2);
    DigitsExclude(y, '-');
    DigitsExclude(m, '-');
    DigitsExclude(d, '-');
    JoinThree(y, m, d, '-');
    SplitJoin([y, m, d], '-');
    ParseI32Text(year);
    ParseU8Text(month, 2);
    ParseU8Text(day, 2);
  }

  /** A leading minus adds a fourth part, so a negative year is always
      rejected as a malformed date. */
  lemma NegativeYearRejected(y: string, m: string, d: string)
    requires '-' !in y && '-' !in m && '-' !in d
    ensures ParseDate("-" + y + "-" + m + "-" + d) == Err(DateFormat)
  {
    JoinThree(y, m, d, '-');
    assert ["", y, m, d][1..] == [y, m, d];
    assert "-" + y + "-" + m + "-" + d == Join(["", y, m, d], '-');
    SplitJoin(["", y, m, d], '-');
  }

  /** The day is only checked against 31, not against the month: a day
      past the end of its month is accepted, though no such date exists. */
  lemma DayNotCheckedAgainstMonth(year: nat, month: U8, day: U8)
    requires year < 0x8000_0000 && 1 <= month <= 12 && 1 <= day <= 31
    requires day > DaysInMonth(year, month)
    ensures ParseDate(FormatDate(year, month, day)) == Ok((year, month, day))
    ensures !Valid(Date(year, month, day))
  {
    ParseDateRoundTrip(year, month, day);
  }

  /** For instance the 31st of February, in every year. */
  lemma FebruaryThirtyFirstAccepted(year: nat)
    requires year < 0x8000_0000
    ensures ParseDate(FormatDate(year, 2, 31)) == Ok((year, 2, 31))
    ensures !Valid(Date(year, 2, 31))
  {
    DayNotCheckedAgainstMonth(year, 2, 31);
  }

  /** `parse_time`: two `:`-separated `u8` parts, an hour up to 23 and a
      minute up to 59. */
  function ParseTime(s: string): (r: Result<(U8, U8), InputError>)
    ensures r == Err(TimeFormat) <==> |Split(s, ':')| != 2
    ensures r.Ok? ==>
              var parts := Split(s, ':');
              && |parts| == 2
              && ParseU8(parts[0]) == Some(r.value.0)
              && ParseU8(parts[1]) == Some(r.value.1)
              && r.value.0 <= 23 && r.value.1 <= 59
    ensures r.Ok? <==>
              var parts := Split(s, ':');
              && |parts| == 2
              && ParseU8(parts[0]).Some? && ParseU8(parts[0]).value <= 23
              && ParseU8(parts[1]).Some? && ParseU8(parts[1]).value <= 59
  {
    var parts := Split(s, ':');
    if |parts| != 2 then Err(TimeFormat)
    else
      match (ParseU8(parts[0]), ParseU8(parts[1]))
      case (None, _) => Err(BadHour)
      case (_, None) => Err(BadMinute)
      case (Some(hour), Some(min)) =>
        if hour > 23 then Err(HourOutOfRange(hour))
        else if min > 59 then Err(MinuteOutOfRange(min))
        else Ok((hour, min))
  }

  /** Every clock time written as `HH:MM` parses back to its fields. */
  lemma ParseTimeRoundTrip(hour: U8, min: U8)
    requires hour <= 23 && min <= 59
    ensures ParseTime(ZeroPadded(hour, 2) + ":" + ZeroPadded(min, 2)) == Ok((hour, min))
  {
    var h := ZeroPadded(hour, 2);
    var m := ZeroPadded(min, 2);
    DigitsExclude(h, ':');
    DigitsExclude(m, ':');
    assert [h, m][1..] == [m];
    assert h + ":" + m == Join([h, m], ':');
    SplitJoin([h, m], ':');
    ParseU8Text(hour, 2);
    ParseU8Text(min, 2);
  }

  /** `parse_utc_offset` after the number has been read (`None` when the
      text is not a number): an offset below -12 or above 14 is refused.
      Both comparisons are false for NaN, so NaN passes. */
  function ParseUtcOffset(parsed: Option<F64>): (r: Result<F64, InputError>)
    ensures r.Ok? <==> parsed.Some? && (parsed.value.NaN? || (parsed.value.Finite? && -12.0 <= parsed.value.value <= 14.0))
    ensures r.Ok? ==> r.value == parsed.value
    ensures parsed.None? ==> r == Err(BadOffset)
  {
    match parsed
    case None => Err(BadOffset)
    case Some(offset) =>
      if Below(offset, -12.0) || Above(offset, 14.0) then Err(OffsetOutOfRange(offset)) else Ok(offset)
  }

  /** NaN gets past the range check; both infinities are refused. */
  lemma NaNOffsetAccepted()
    ensures ParseUtcOffset(Some(NaN)) == Ok(NaN)
    ensures ParseUtcOffset(Some(Infinity(true))).Err? && ParseUtcOffset(Some(Infinity(false))).Err?
  {
  }

  /** The offset check as evidently intended: only a finite number in
      [-12, 14] is accepted. */
  function ParseFiniteOffset(parsed: Option<F64>): (r: Result<real, InputError>)
    ensures r.Ok? <==> parsed.Some? && parsed.value.Finite? && -12.0 <= parsed.value.value <= 14.0
    ensures r.Ok? ==> parsed == Some(Finite(r.value))
    ensures parsed.None? ==> r == Err(BadOffset)
  {
    match parsed
    case None => Err(BadOffset)
    case Some(Finite(v)) =>
      if v < -12.0 || v > 14.0 then Err(OffsetOutOfRange(Finite(v))) else Ok(v)
    case Some(x) => Err(OffsetOutOfRange(x))
  }

  /** The intended check differs from the program's only on NaN. */
  lemma FiniteOffsetAgrees(parsed: Option<F64>)
    requires parsed != Some(NaN)
    ensures ParseFiniteOffset(parsed).Ok? <==> ParseUtcOffset(parsed).Ok?
    ensures ParseFiniteOffset(parsed).Ok? ==> ParseUtcOffset(parsed).value == Finite(ParseFiniteOffset(parsed).value)
    ensures ParseFiniteOffset(Some(NaN)).Err?
  {
  }

  /** `parse_date` with the day also checked against the length of its
      month, as evidently intended: only real calendar days are accepted. */
  function ParseCalendarDate(s: string): (r: Result<(int, U8, U8), InputError>)
    ensures r.Ok? <==> ParseDate(s).Ok? && Valid(Date(ParseDate(s).value.0, ParseDate(s).value.1, ParseDate(s).value.2))
    ensures r.Ok? ==> r == ParseDate(s)
  {
    match ParseDate(s)
    case Err(e) => Err(e)
    case Ok((year, month, day)) =>
      if day > DaysInMonth(year, month) then Err(DayPastMonthEnd(day)) else Ok((year, month, day))
  }

  /** 31 February is refused by the intended check, in every year. */
  lemma FebruaryThirtyFirstRefused(year: nat)
    requires year < 0x8000_0000
    ensures ParseCalendarDate(FormatDate(year, 2, 31)) == Err(DayPastMonthEnd(31))
  {
    FebruaryThirtyFirstAccepted(year);
  }

  /** With the intended checks, every accepted date, time and offset has a
      UTC date that is a real calendar day exactly one step from the local
      date when midnight is crossed, and a Julian day. */
  lemma AcceptedInputs(julianDay: AstroCalc.AstroDate -> real, date: string, time: string, offset: Option<F64>)
    requires ParseCalendarDate(date).Ok? && ParseTime(time).Ok? && ParseFiniteOffset(offset).Ok?
    ensures var (y, m, d) := ParseCalendarDate(date).value;
            var (h, mi) := ParseTime(time).value;
            var o := ParseFiniteOffset(offset).value;
            var utc := AstroCalc.UtcDateTime(Date(y, m, d), h, mi, o).0;
            var shift := AstroCalc.DayShift(h, mi, o);
            && Valid(Date(y, m, d)) && AstroCalc.ClockInputs(h, mi, o)
            && Valid(utc)
            && (shift == -1 ==> NextDay(utc) == Date(y, m, d))
            && (shift == 1 ==> PrevDay(utc) == Date(y, m, d))
            && (shift == 0 ==> utc == Date(y, m, d))
            && AstroCalc.CalcJulianDay(julianDay, Date(y, m, d), h, mi, o).Some?
  {
    var (y, m, d) := ParseCalendarDate(date).value;
    var (h, mi) := ParseTime(time).value;
    var o := ParseFiniteOffset(offset).value;
    AstroCalc.Rollover(Date(y, m, d), h, mi, o);
    AstroCalc.AcceptedInputsHaveJulianDay(julianDay, Date(y, m, d), h, mi, o);
  }

  /** Every date the program's validator accepts, including one past the end
      of its month, gets a Julian day whatever the time and offset: the UTC
      conversion never reaches the panic in `month_from_u8`. */
  lemma AcceptedDateHasJulianDay(julianDay: AstroCalc.AstroDate -> real, date: string, hour: U8, min: U8, offset: real)
    requires ParseDate(date).Ok?
    ensures var (y, m, d) := ParseDate(date).value;
            AstroCalc.CalcJulianDay(julianDay, Date(y, m, d), hour, min, offset).Some?
  {
    var (y, m, d) := ParseDate(date).value;
    AstroCalc.AcceptedInputsHaveJulianDay(julianDay, Date(y, m, d), hour, min, offset);
  }
}
