/**
 * The client's timestamp reader, `ChatApp.parseISO8601`
 * (js/chatapp.js:210-231). It tokenizes `YYYY-MM-DDTHH:MM:SS[.fff]Z` by
 * splitting on 'T', then '-', then 'Z', then ':', then '.', converts each
 * piece with `Number()` and writes the fields into a UTC date.
 */
module Iso8601 {
  import opened Results
  import opened Text
  import opened UtcCalendar

  /**
   * The fields written into the JavaScript `Date`. `month` is zero-based
   * (the text's month minus one). `millis` is None when the input had no
   * fractional part, in which case the Date keeps whatever milliseconds the
   * clock held when it was created. InvalidDate is the Date a NaN field
   * leaves behind.
   */
  datatype Date =
    | UtcDate(year: nat, month: int, day: nat, hours: nat, minutes: nat, seconds: nat, millis: Option<nat>)
    | InvalidDate

  /**
   * The TypeError the reader throws when it calls `split` on a piece that
   * does not exist: no 'T' at all, or fewer than two ':' in the time part.
   */
  datatype ParseError = NoTimePart | NoSecondsPart

  /** `Number(pieces[i])`, where a missing piece is `undefined` and converts to NaN. */
  function PieceNumber(pieces: seq<string>, i: nat): (r: Option<nat>)
    ensures r.Some? <==> i < |pieces| && AllDigits(pieces[i])
  {
    if i < |pieces| then NumberOf(pieces[i]) else None
  }

  /** The fraction piece is used only when it is present and non-empty (`if (timeSecParts[1])`). */
  function FractionPiece(timeSecParts: seq<string>): Option<string> {
    if |timeSecParts| >= 2 && timeSecParts[1] != "" then Some(timeSecParts[1]) else None
  }

  function ParseISO8601(str: string): (r: Result<Date, ParseError>)
    ensures r == Failure(NoTimePart) <==> 'T' !in str
    ensures r.Success? && r.value.UtcDate? ==> r.value.month >= -1
  {
    var parts := Split(str, 'T');
    if |parts| < 2 then Failure(NoTimePart)
    else ParseTime(Split(parts[0], '-'), parts[1])
  }

  /** The reader after the date has been split off: the time text `parts[1]`. */
  function ParseTime(dateParts: seq<string>, timeText: string): (r: Result<Date, ParseError>)
    ensures r != Failure(NoTimePart)
    ensures r.Success? && r.value.UtcDate? ==> r.value.month >= -1
  {
    var timeParts := Split(timeText, 'Z');
    var timeSubParts := Split(timeParts[0], ':');
    if |timeSubParts| < 3 then Failure(NoSecondsPart)
    else Success(SetFields(dateParts, timeSubParts, Split(timeSubParts[2], '.')))
  }

  /** The `setUTC...` calls: any NaN field leaves an invalid Date. */
  function SetFields(dateParts: seq<string>, timeSubParts: seq<string>, timeSecParts: seq<string>): (r: Date)
    ensures r.UtcDate? ==> r.month >= -1
  {
    var year := PieceNumber(dateParts, 0);
    var month := PieceNumber(dateParts, 1);
    var day := PieceNumber(dateParts, 2);
    var hours := PieceNumber(timeSubParts, 0);
    var minutes := PieceNumber(timeSubParts, 1);
    var seconds := PieceNumber(timeSecParts, 0);
    if year.None? || month.None? || day.None? || hours.None? || minutes.None? || seconds.None? then
      InvalidDate
    else
      match FractionPiece(timeSecParts)
      case None =>
        UtcDate(year.value, month.value - 1, day.value, hours.value, minutes.value, seconds.value, None)
      case Some(fraction) =>
        match NumberOf(fraction)
        case None => InvalidDate
        case Some(ms) =>
          UtcDate(year.value, month.value - 1, day.value, hours.value, minutes.value, seconds.value, Some(ms))
  }

  /** The text after the seconds: nothing, or '.' and the fraction digits. */
  function FractionText(fraction: Option<string>): string {
    match fraction
    case None => ""
    case Some(f) => "." + f
  }

  /** The date text `y-mo-d`. */
  function DateText(y: string, mo: string, d: string): string {
    y + "-" + mo + "-" + d
  }

  /** The time text `h:mi:sec`. */
  function TimeText(h: string, mi: string, sec: string): string {
    h + ":" + mi + ":" + sec
  }

  /** The timestamp text `<date>T<time><suffix>` the server sends, with suffix "Z". */
  function Timestamp(y: string, mo: string, d: string, h: string, mi: string, s: string,
                     fraction: Option<string>, suffix: string): string
  {
    DateText(y, mo, d) + "T" + TimeText(h, mi, s + FractionText(fraction)) + suffix
  }

  /** Digit strings contain none of the reader's separators. */
  lemma DigitsHaveNoSeparator(s: string)
    requires AllDigits(s)
    ensures 'T' !in s && '-' !in s && 'Z' !in s && ':' !in s && '.' !in s
  {
    assert !IsDigit('T') && !IsDigit('-') && !IsDigit('Z') && !IsDigit(':') && !IsDigit('.');
  }

  /** Splits a date `y-mo-d` of digit strings into its three pieces. */
  lemma SplitDate(y: string, mo: string, d: string)
    requires AllDigits(y) && AllDigits(mo) && AllDigits(d)
    ensures 'T' !in DateText(y, mo, d)
    ensures Split(DateText(y, mo, d), '-') == [y, mo, d]
  {
    DigitsHaveNoSeparator(y);
    DigitsHaveNoSeparator(mo);
    DigitsHaveNoSeparator(d);
    assert DateText(y, mo, d) == y + ['-'] + (mo + ['-'] + d);
    SplitAtFirst(y, '-', mo + ['-'] + d);
    SplitAtFirst(mo, '-', d);
    SplitWithoutSeparator(d, '-');
  }

  /** Splits a time `h:mi:sec` into three pieces when `h` and `mi` are digit strings and `sec` has no ':'. */
  lemma SplitTime(h: string, mi: string, sec: string)
    requires AllDigits(h) && AllDigits(mi) && ':' !in sec
    ensures Split(TimeText(h, mi, sec), ':') == [h, mi, sec]
  {
    DigitsHaveNoSeparator(h);
    DigitsHaveNoSeparator(mi);
    assert TimeText(h, mi, sec) == h + [':'] + (mi + [':'] + sec);
    SplitAtFirst(h, ':', mi + [':'] + sec);
    SplitAtFirst(mi, ':', sec);
    SplitWithoutSeparator(sec, ':');
  }

  /** A time of digit fields holds neither a 'T' nor a 'Z'. */
  lemma TimeHasNoTOrZ(h: string, mi: string, sec: string)
    requires AllDigits(h) && AllDigits(mi) && 'T' !in sec && 'Z' !in sec
    ensures 'T' !in TimeText(h, mi, sec) && 'Z' !in TimeText(h, mi, sec)
  {
    DigitsHaveNoSeparator(h);
    DigitsHaveNoSeparator(mi);
    assert TimeText(h, mi, sec) == h + [':'] + mi + [':'] + sec;
  }

  /** Splits the seconds text `s[.f]` on '.'. */
  lemma SplitSeconds(s: string, fraction: Option<string>)
    requires AllDigits(s)
    requires fraction.Some? ==> AllDigits(fraction.value)
    ensures ':' !in s + FractionText(fraction) && 'Z' !in s + FractionText(fraction)
    ensures 'T' !in s + FractionText(fraction)
    ensures Split(s + FractionText(fraction), '.')
         == (match fraction case None => [s] case Some(f) => [s, f])
  {
    DigitsHaveNoSeparator(s);
    match fraction
    case None =>
      assert s + FractionText(fraction) == s;
      SplitWithoutSeparator(s, '.');
    case Some(f) =>
      DigitsHaveNoSeparator(f);
      assert s + FractionText(fraction) == s + ['.'] + f;
      SplitAtFirst(s, '.', f);
      SplitWithoutSeparator(f, '.');
  }

  /** The 'Z' split keeps the whole time text when the suffix is empty or starts with 'Z'. */
  lemma SplitZone(time: string, suffix: string)
    requires 'Z' !in time
    requires suffix == "" || suffix[0] == 'Z'
    ensures Split(time + suffix, 'Z')[0] == time
  {
    SplitFirstIsFirstPiece(time + suffix, 'Z');
    FirstPieceAppend(time, 'Z', suffix);
    assert FirstPiece(suffix, 'Z') == "";
    assert time + "" == time;
  }

  /**
   * The date stage: the first 'T' hands the date pieces and the text up to
   * the next 'T' (`parts[1]`) to the time stage.
   */
  lemma ParseDateStage(date: string, rest: string)
    requires 'T' !in date
    ensures ParseISO8601(date + "T" + rest) == ParseTime(Split(date, '-'), Split(rest, 'T')[0])
  {
    assert date + "T" + rest == date + ['T'] + rest;
    SplitAtFirst(date, 'T', rest);
  }

  /**
   * The text the time stage sees when a suffix that is empty or starts with
   * 'Z' follows a time without 'T': the time, then a zone text that is again
   * empty or starts with 'Z'.
   */
  lemma TimeBeforeNextT(time: string, suffix: string)
    requires 'T' !in time
    requires suffix == "" || suffix[0] == 'Z'
    ensures Split(time + suffix, 'T')[0] == time + Split(suffix, 'T')[0]
    ensures Split(suffix, 'T')[0] == "" || Split(suffix, 'T')[0][0] == 'Z'
  {
    SplitFirstIsFirstPiece(time + suffix, 'T');
    SplitFirstIsFirstPiece(suffix, 'T');
    FirstPieceAppend(time, 'T', suffix);
  }

  /** The `setUTC...` stage on the pieces of a well-formed timestamp. */
  lemma SetFieldsWellFormed(y: string, mo: string, d: string, h: string, mi: string, s: string,
                            fraction: Option<string>)
    requires AllDigits(y) && AllDigits(mo) && AllDigits(d)
    requires AllDigits(h) && AllDigits(mi) && AllDigits(s)
    requires fraction.Some? ==> AllDigits(fraction.value)
    ensures SetFields([y, mo, d], [h, mi, s + FractionText(fraction)],
                      match fraction case None => [s] case Some(f) => [s, f])
         == UtcDate(NumberOf(y).value, NumberOf(mo).value - 1, NumberOf(d).value,
                    NumberOf(h).value, NumberOf(mi).value, NumberOf(s).value,
                    if fraction.Some? && fraction.value != "" then Some(NumberOf(fraction.value).value) else None)
  {
  }

  /** The time stage on the text after the 'T' of a well-formed timestamp. */
  lemma ParseTimeWellFormed(y: string, mo: string, d: string, h: string, mi: string, s: string,
                            fraction: Option<string>, suffix: string)
    requires AllDigits(y) && AllDigits(mo) && AllDigits(d)
    requires AllDigits(h) && AllDigits(mi) && AllDigits(s)
    requires fraction.Some? ==> AllDigits(fraction.value)
    requires suffix == "" || suffix[0] == 'Z'
    ensures ParseTime([y, mo, d], TimeText(h, mi, s + FractionText(fraction)) + suffix)
         == Success(SetFields([y, mo, d], [h, mi, s + FractionText(fraction)],
                              match fraction case None => [s] case Some(f) => [s, f]))
  {
    var secText := s + FractionText(fraction);
    var time := TimeText(h, mi, secText);
    SplitSeconds(s, fraction);
    TimeHasNoTOrZ(h, mi, secText);
    SplitZone(time, suffix);
    SplitTime(h, mi, secText);
  }

  /** The date stage of a well-formed timestamp: the time stage sees the time and the zone text up to the next 'T'. */
  lemma TimestampDateStage(y: string, mo: string, d: string, h: string, mi: string, s: string,
                           fraction: Option<string>, suffix: string)
    requires AllDigits(y) && AllDigits(mo) && AllDigits(d)
    requires AllDigits(h) && AllDigits(mi) && AllDigits(s)
    requires fraction.Some? ==> AllDigits(fraction.value)
    requires suffix == "" || suffix[0] == 'Z'
    ensures ParseISO8601(Timestamp(y, mo, d, h, mi, s, fraction, suffix))
         == ParseTime([y, mo, d], TimeText(h, mi, s + FractionText(fraction)) + Split(suffix, 'T')[0])
  {
    var secText := s + FractionText(fraction);
    var time := TimeText(h, mi, secText);
    assert Timestamp(y, mo, d, h, mi, s, fraction, suffix) == DateText(y, mo, d) + "T" + (time + suffix);
    SplitSeconds(s, fraction);
    TimeHasNoTOrZ(h, mi, secText);
    SplitDate(y, mo, d);
    ParseDateStage(DateText(y, mo, d), time + suffix);
    TimeBeforeNextT(time, suffix);
  }

  /**
   * On the profile the server sends, digit fields `y-mo-dTh:mi:s[.f]Z`, the
   * reader yields year y, zero-based month mo - 1, day d, hours h, minutes
   * mi, seconds s (each as `Number()` reads it), and milliseconds equal to
   * the value of f itself (unscaled), set only when f is present and non-empty. The trailing 'Z'
   * is never checked: `suffix` may be empty, or 'Z' followed by any text.
   */
  lemma ParseWellFormed(y: string, mo: string, d: string, h: string, mi: string, s: string,
                        fraction: Option<string>, suffix: string)
    requires AllDigits(y) && AllDigits(mo) && AllDigits(d)
    requires AllDigits(h) && AllDigits(mi) && AllDigits(s)
    requires fraction.Some? ==> AllDigits(fraction.value)
    requires suffix == "" || suffix[0] == 'Z'
    ensures ParseISO8601(Timestamp(y, mo, d, h, mi, s, fraction, suffix))
         == Success(UtcDate(NumberOf(y).value, NumberOf(mo).value - 1, NumberOf(d).value,
                            NumberOf(h).value, NumberOf(mi).value, NumberOf(s).value,
                            if fraction.Some? && fraction.value != "" then Some(NumberOf(fraction.value).value) else None))
  {
    var secText := s + FractionText(fraction);
    var zone := Split(suffix, 'T')[0];
    TimestampDateStage(y, mo, d, h, mi, s, fraction, suffix);
    TimeBeforeNextT(TimeText(h, mi, secText), suffix);
    ParseTimeWellFormed(y, mo, d, h, mi, s, fraction, zone);
    SetFieldsWellFormed(y, mo, d, h, mi, s, fraction);
  }

  /** Writes a date back out in the profile the reader accepts. */
  function Format(date: Date): string
    requires date.UtcDate? && date.month >= -1
  {
    Timestamp(NatToDecimal(date.year), NatToDecimal(date.month + 1), NatToDecimal(date.day),
              NatToDecimal(date.hours), NatToDecimal(date.minutes), NatToDecimal(date.seconds),
              match date.millis case None => None case Some(ms) => Some(NatToDecimal(ms)),
              "Z")
  }

  /** Every date the reader can produce is read back from its formatted text. */
  lemma FormatRoundTrip(date: Date)
    requires date.UtcDate? && date.month >= -1
    ensures ParseISO8601(Format(date)) == Success(date)
  {
    var fraction := match date.millis case None => None case Some(ms) => Some(NatToDecimal(ms));
    ParseWellFormed(NatToDecimal(date.year), NatToDecimal(date.month + 1), NatToDecimal(date.day),
                    NatToDecimal(date.hours), NatToDecimal(date.minutes), NatToDecimal(date.seconds),
                    fraction, "Z");
  }

  /**
   * A read date this model resolves to a calendar day: month and day in
   * range for the date setters, and hours, minutes, seconds and milliseconds
   * in range, so that the time setters (js/chatapp.js:222-226) cannot move
   * the day.
   */
  predicate ResolvableDay(date: Date) {
    && date.UtcDate?
    && 0 <= date.month < 12 && 1 <= date.day <= 31
    && date.hours < 24 && date.minutes < 60 && date.seconds < 60
    && (date.millis.None? || date.millis.value < 1000)
  }

  /**
   * The calendar day the reader's Date ends up on, on a clock showing `now`:
   * the year, month and day setters applied in turn to the clock's day
   * (js/chatapp.js:217-221); the in-range time setters after them leave the
   * day alone. None when a field is out of the range this model resolves.
   */
  function CalendarDay(date: Date, now: CivilDate): (r: Option<CivilDate>)
    requires ValidDate(now)
    ensures r.Some? <==> ResolvableDay(date)
    ensures r.Some? ==> ValidDate(r.value)
    ensures r.Some? && ValidDate(CivilDate(date.year, date.month, date.day))
            && now.day <= DaysInMonth(date.year, date.month)
            ==> r.value == CivilDate(date.year, date.month, date.day)
  {
    if ResolvableDay(date) then Some(SetDateFieldsAsWritten(now, date.year, date.month, date.day))
    else None
  }

  /**
   * The calendar day the reader evidently means: the day the fields name,
   * set in one `setUTCFullYear(year, month, day)` call, whatever the clock
   * shows.
   */
  function IntendedCalendarDay(date: Date): (r: Option<CivilDate>)
    ensures r.Some? <==> ResolvableDay(date)
    ensures r.Some? && ValidDate(CivilDate(date.year, date.month, date.day))
            ==> r.value == CivilDate(date.year, date.month, date.day)
  {
    if ResolvableDay(date) then Some(SetDateFieldsIntended(date.year, date.month, date.day))
    else None
  }

  /**
   * For a valid named day, and a clock whose day survives the year change,
   * the reader lands on the intended day exactly when the clock's day of the
   * month exists in the named month.
   */
  lemma CalendarDayMatchesIntendedIff(date: Date, now: CivilDate)
    requires ValidDate(now) && ResolvableDay(date)
    requires ValidDate(CivilDate(date.year, date.month, date.day))
    requires now.day <= DaysInMonth(date.year, now.month)
    ensures CalendarDay(date, now) == IntendedCalendarDay(date)
        <==> now.day <= DaysInMonth(date.year, date.month)
  {
    AsWrittenDependsOnClock(now, date.year, date.month, date.day);
  }

  /**
   * A time part with a single ':' (no seconds), followed by nothing or by a
   * 'Z' and any text, makes the reader throw.
   */
  lemma NoSecondsPartThrows(date: string, hours: string, minutes: string, suffix: string)
    requires 'T' !in date
    requires 'T' !in hours && 'Z' !in hours && ':' !in hours
    requires 'T' !in minutes && 'Z' !in minutes && ':' !in minutes
    requires suffix == "" || suffix[0] == 'Z'
    ensures ParseISO8601(date + "T" + hours + ":" + minutes + suffix) == Failure(NoSecondsPart)
  {
    var time := hours + [':'] + minutes;
    assert date + "T" + hours + ":" + minutes + suffix == date + "T" + (time + suffix);
    assert 'T' !in time && 'Z' !in time;
    ParseDateStage(date, time + suffix);
    TimeBeforeNextT(time, suffix);
    SplitZone(time, Split(suffix, 'T')[0]);
    SplitAtFirst(hours, ':', minutes);
    SplitWithoutSeparator(minutes, ':');
  }

  /** A time whose seconds text holds one more ':' splits into four pieces. */
  lemma SplitTimeWithExtraColon(h: string, mi: string, sec: string, tail: string)
    requires ':' !in h && ':' !in mi && ':' !in sec && ':' !in tail
    ensures Split(TimeText(h, mi, sec + [':'] + tail), ':') == [h, mi, sec, tail]
  {
    assert TimeText(h, mi, sec + [':'] + tail) == h + [':'] + (mi + [':'] + (sec + [':'] + tail));
    SplitAtFirst(h, ':', mi + [':'] + (sec + [':'] + tail));
    SplitAtFirst(mi, ':', sec + [':'] + tail);
    SplitAtFirst(sec, ':', tail);
    SplitWithoutSeparator(tail, ':');
  }

  /** Without a fraction, an offset after the seconds makes the seconds piece NaN. */
  lemma OffsetAfterSeconds(dateParts: seq<string>, timeSubParts: seq<string>, s: string,
                           sign: char, offsetHours: string)
    requires AllDigits(s) && (sign == '+' || sign == '-') && AllDigits(offsetHours)
    ensures SetFields(dateParts, timeSubParts, Split(s + [sign] + offsetHours, '.')) == InvalidDate
  {
    var secText := s + [sign] + offsetHours;
    DigitsHaveNoSeparator(s);
    DigitsHaveNoSeparator(offsetHours);
    SplitWithoutSeparator(secText, '.');
    assert secText[|s|] == sign && !IsDigit(sign);
  }

  /** With a fraction, an offset after it makes the fraction piece NaN. */
  lemma OffsetAfterFraction(dateParts: seq<string>, timeSubParts: seq<string>, s: string, f: string,
                            sign: char, offsetHours: string)
    requires AllDigits(s) && AllDigits(f) && (sign == '+' || sign == '-') && AllDigits(offsetHours)
    ensures SetFields(dateParts, timeSubParts, Split(s + ['.'] + (f + [sign] + offsetHours), '.')) == InvalidDate
  {
    var tail := f + [sign] + offsetHours;
    DigitsHaveNoSeparator(s);
    DigitsHaveNoSeparator(f);
    DigitsHaveNoSeparator(offsetHours);
    SplitAtFirst(s, '.', tail);
    SplitWithoutSeparator(tail, '.');
    assert tail[|f|] == sign && !IsDigit(sign);
  }

  /**
   * Seconds text carrying a zone offset's `+hh` or `-hh` after the seconds
   * and optional fraction makes the `setUTC...` stage give an invalid Date,
   * whatever the other pieces are.
   */
  lemma OffsetMakesSecondsNaN(dateParts: seq<string>, timeSubParts: seq<string>, s: string,
                              fraction: Option<string>, sign: char, offsetHours: string)
    requires AllDigits(s) && (fraction.Some? ==> AllDigits(fraction.value))
    requires sign == '+' || sign == '-'
    requires AllDigits(offsetHours)
    ensures SetFields(dateParts, timeSubParts, Split(s + FractionText(fraction) + [sign] + offsetHours, '.'))
         == InvalidDate
  {
    match fraction
    case None =>
      assert s + FractionText(fraction) + [sign] + offsetHours == s + [sign] + offsetHours;
      OffsetAfterSeconds(dateParts, timeSubParts, s, sign, offsetHours);
    case Some(f) =>
      assert s + FractionText(fraction) + [sign] + offsetHours == s + ['.'] + (f + [sign] + offsetHours);
      OffsetAfterFraction(dateParts, timeSubParts, s, f, sign, offsetHours);
  }

  /**
   * A numeric zone offset `+hh:mm` or `-hh:mm` in place of the 'Z', after
   * the seconds or after a fraction, ends up inside the seconds piece
   * ("56+02") or the fraction piece ("789+02"), which is not a number, so the
   * Date is invalid: the reader accepts only UTC timestamps.
   */
  lemma ZoneOffsetIsInvalid(y: string, mo: string, d: string, h: string, mi: string, s: string,
                            fraction: Option<string>, sign: char, offsetHours: string, offsetMinutes: string)
    requires AllDigits(y) && AllDigits(mo) && AllDigits(d)
    requires AllDigits(h) && AllDigits(mi) && AllDigits(s)
    requires fraction.Some? ==> AllDigits(fraction.value)
    requires sign == '+' || sign == '-'
    requires AllDigits(offsetHours) && AllDigits(offsetMinutes)
    ensures ParseISO8601(DateText(y, mo, d) + "T"
                         + TimeText(h, mi, s + FractionText(fraction) + [sign] + offsetHours + [':'] + offsetMinutes))
         == Success(InvalidDate)
  {
    var secText := s + FractionText(fraction) + [sign] + offsetHours;
    var time := TimeText(h, mi, secText + [':'] + offsetMinutes);
    OffsetSecondsText(s, fraction, sign, offsetHours);
    DigitsHaveNoSeparator(offsetMinutes);
    TimeHasNoTOrZ(h, mi, secText + [':'] + offsetMinutes);
    DateStageOfDigits(y, mo, d, time);
    OffsetTimeStage(Split(DateText(y, mo, d), '-'), h, mi, secText, offsetMinutes);
    OffsetMakesSecondsNaN(Split(DateText(y, mo, d), '-'), [h, mi, secText, offsetMinutes], s, fraction, sign, offsetHours);
  }

  /** Seconds, optional fraction and an offset's hours hold none of the separators before '.'. */
  lemma OffsetSecondsText(s: string, fraction: Option<string>, sign: char, offsetHours: string)
    requires AllDigits(s) && (fraction.Some? ==> AllDigits(fraction.value))
    requires sign == '+' || sign == '-'
    requires AllDigits(offsetHours)
    ensures var secText := s + FractionText(fraction) + [sign] + offsetHours;
            'T' !in secText && 'Z' !in secText && ':' !in secText
  {
    SplitSeconds(s, fraction);
    DigitsHaveNoSeparator(offsetHours);
    assert s + FractionText(fraction) + [sign] + offsetHours == (s + FractionText(fraction)) + ([sign] + offsetHours);
  }

  /** The date stage for a digit date followed by a time without 'T'. */
  lemma DateStageOfDigits(y: string, mo: string, d: string, time: string)
    requires AllDigits(y) && AllDigits(mo) && AllDigits(d)
    requires 'T' !in time
    ensures ParseISO8601(DateText(y, mo, d) + "T" + time) == ParseTime(Split(DateText(y, mo, d), '-'), time)
  {
    SplitDate(y, mo, d);
    ParseDateStage(DateText(y, mo, d), time);
    SplitWithoutSeparator(time, 'T');
  }

  /** The time stage when the seconds text is followed by one more ':' and the offset's minutes. */
  lemma OffsetTimeStage(dateParts: seq<string>, h: string, mi: string, secText: string, offsetMinutes: string)
    requires AllDigits(h) && AllDigits(mi) && AllDigits(offsetMinutes)
    requires 'T' !in secText && 'Z' !in secText && ':' !in secText
    ensures ParseTime(dateParts, TimeText(h, mi, secText + [':'] + offsetMinutes))
         == Success(SetFields(dateParts, [h, mi, secText, offsetMinutes], Split(secText, '.')))
  {
    var time := TimeText(h, mi, secText + [':'] + offsetMinutes);
    DigitsHaveNoSeparator(offsetMinutes);
    TimeHasNoTOrZ(h, mi, secText + [':'] + offsetMinutes);
    SplitWithoutSeparator(time, 'Z');
    DigitsHaveNoSeparator(h);
    DigitsHaveNoSeparator(mi);
    SplitTimeWithExtraColon(h, mi, secText, offsetMinutes);
  }

  lemma DigitFacts()
    ensures NumberOf("2013") == Some(2013) && NumberOf("05") == Some(5) && NumberOf("01") == Some(1)
    ensures NumberOf("12") == Some(12) && NumberOf("34") == Some(34) && NumberOf("56") == Some(56)
    ensures NumberOf("789") == Some(789) && NumberOf("00") == Some(0)
  {
    assert "2013"[..3] == "201" && "201"[..2] == "20" && "20"[..1] == "2" && "2"[..0] == "";
    assert "05"[..1] == "0" && "0"[..0] == "";
    assert "00"[..1] == "0";
    assert "01"[..1] == "0";
    assert "12"[..1] == "1" && "1"[..0] == "";
    assert "34"[..1] == "3" && "3"[..0] == "";
    assert "56"[..1] == "5" && "5"[..0] == "";
    assert "789"[..2] == "78" && "78"[..1] == "7" && "7"[..0] == "";
  }

  /** The timestamp with a fraction reads as 2013-05-01 12:34:56.789 UTC. */
  lemma ExampleWithFraction(str: string)
    requires str == "2013-05-01T12:34:56.789Z"
    ensures ParseISO8601(str) == Success(UtcDate(2013, 4, 1, 12, 34, 56, Some(789)))
  {
    var y, mo, d, h, mi, s, f := "2013", "05", "01", "12", "34", "56", "789";
    DigitFacts();
    assert Timestamp(y, mo, d, h, mi, s, Some(f), "Z") == str;
    ParseWellFormed(y, mo, d, h, mi, s, Some(f), "Z");
  }

  /** Without a fraction the milliseconds are not set. */
  lemma ExampleWithoutFraction(str: string)
    requires str == "2013-05-01T12:34:56Z"
    ensures ParseISO8601(str) == Success(UtcDate(2013, 4, 1, 12, 34, 56, None))
  {
    var y, mo, d, h, mi, s := "2013", "05", "01", "12", "34", "56";
    DigitFacts();
    assert Timestamp(y, mo, d, h, mi, s, None, "Z") == str;
    ParseWellFormed(y, mo, d, h, mi, s, None, "Z");
  }
}
