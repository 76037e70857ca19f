/** The composite flags and the patterns they stand for. */
module PatternExpansions {
  import opened Options
  import opened Numerals
  import opened CountDigits
  import opened FormatIntegers
  import opened WriteIntegers
  import opened Patterns

  /** Whatever follows it, the pattern `p` reads as `text`. */
  ghost predicate Reads(p: string, text: string, read: string -> string) {
    forall rest {:trigger read(p + rest)} :: read(p + rest) == text + read(rest)
  }

  /** Whatever follows them, the two patterns read the same. */
  ghost predicate Interchangeable(p: string, q: string, read: string -> string) {
    forall rest {:trigger read(p + rest)} :: read(p + rest) == read(q + rest)
  }

  lemma ReadsAlone(p: string, text: string, read: string -> string)
    requires Reads(p, text, read) && read("") == ""
    ensures read(p) == text
  {
    assert p + "" == p && read(p + "") == text + "";
  }

  lemma SameReading(p: string, q: string, text: string, read: string -> string)
    requires Reads(p, text, read) && Reads(q, text, read)
    ensures Interchangeable(p, q, read)
  {
    forall rest ensures read(p + rest) == read(q + rest) {
      assert read(p + rest) == text + read(rest);
    }
  }

  lemma ReadsBoth(p: string, a: string, q: string, b: string, read: string -> string)
    requires Reads(p, a, read) && Reads(q, b, read)
    ensures Reads(p + q, a + b, read)
  {
    forall rest ensures read((p + q) + rest) == (a + b) + read(rest) {
      assert (p + q) + rest == p + (q + rest);
      assert read(q + rest) == b + read(rest);
      Regroup(a, b, read(rest));
    }
  }

  /** Reading a pattern with given formatters. */
  function Reading(show: Formatter -> string): string -> string {
    p => Interpret(p, show)
  }

  lemma FlagAhead(flag: char, rest: string, show: Formatter -> string)
    ensures Interpret(['%', flag] + rest, show) == FlagText(flag, show) + Interpret(rest, show)
  {
    assert (['%', flag] + rest)[2..] == rest;
  }

  lemma {:induction false} TextAhead(t: string, rest: string, show: Formatter -> string)
    requires '%' !in t
    ensures Interpret(t + rest, show) == t + Interpret(rest, show)
  {
    if t == "" {
      assert t + rest == rest;
    } else {
      TextAhead(t[1..], rest, show);
      assert (t + rest)[1..] == t[1..] + rest;
      Regroup([t[0]], t[1..], Interpret(rest, show));
      assert t == [t[0]] + t[1..];
    }
  }

  /** All that the expansions use of a reading. */
  ghost predicate IsReading(read: string -> string, show: Formatter -> string) {
    && read("") == ""
    && (forall flag, rest {:trigger read(['%', flag] + rest)} ::
          read(['%', flag] + rest) == FlagText(flag, show) + read(rest))
    && (forall t, rest {:trigger read(t + rest), Literally(t)} ::
          Literally(t) ==> read(t + rest) == t + read(rest))
  }

  predicate Literally(t: string) {
    '%' !in t
  }

  lemma ReadingReads(show: Formatter -> string)
    ensures IsReading(Reading(show), show)
  {
    var read := Reading(show);
    forall flag, rest ensures read(['%', flag] + rest) == FlagText(flag, show) + read(rest) {
      FlagAhead(flag, rest, show);
    }
    forall t, rest | Literally(t) ensures read(t + rest) == t + read(rest) {
      TextAhead(t, rest, show);
    }
  }

  lemma ReadsFlag(flag: char, read: string -> string, show: Formatter -> string)
    requires IsReading(read, show)
    ensures Reads(['%', flag], FlagText(flag, show), read)
  {
  }

  lemma ReadsText(t: string, read: string -> string, show: Formatter -> string)
    requires IsReading(read, show) && Literally(t)
    ensures Reads(t, t, read)
  {
  }

  lemma ThenText(p: string, a: string, t: string, read: string -> string, show: Formatter -> string)
    requires IsReading(read, show) && Reads(p, a, read) && Literally(t)
    ensures Reads(p + t, a + t, read)
  {
    ReadsText(t, read, show);
    ReadsBoth(p, a, t, t, read);
  }

  lemma ThenFlag(p: string, a: string, flag: char, read: string -> string, show: Formatter -> string)
    requires IsReading(read, show) && Reads(p, a, read)
    ensures Reads(p + ['%', flag], a + FlagText(flag, show), read)
  {
    ReadsFlag(flag, read, show);
    ReadsBoth(p, a, ['%', flag], FlagText(flag, show), read);
  }

  /** A flag, a text and another flag. */
  lemma TwoFlags(a: char, t: string, b: char, read: string -> string, show: Formatter -> string)
    requires IsReading(read, show) && Literally(t)
    ensures Reads(['%', a] + t + ['%', b], FlagText(a, show) + t + FlagText(b, show), read)
  {
    ReadsFlag(a, read, show);
    ThenText(['%', a], FlagText(a, show), t, read, show);
    ThenFlag(['%', a] + t, FlagText(a, show) + t, b, read, show);
  }

  lemma ThreeFlags(a: char, t: string, b: char, c: char, read: string -> string, show: Formatter -> string)
    requires IsReading(read, show) && Literally(t)
    ensures Reads(['%', a] + t + ['%', b] + t + ['%', c],
                  FlagText(a, show) + t + FlagText(b, show) + t + FlagText(c, show), read)
  {
    TwoFlags(a, t, b, read, show);
    var p, text := ['%', a] + t + ['%', b], FlagText(a, show) + t + FlagText(b, show);
    ThenText(p, text, t, read, show);
    ThenFlag(p + t, text + t, c, read, show);
  }

  // ---- the short composites ----------------------------------------------------------------------

  lemma ClockPattern(read: string -> string, show: Formatter -> string)
    requires IsReading(read, show)
    ensures Reads("%H:%M:%S", show(Hour24) + ":" + show(Minute) + ":" + show(Second), read)
  {
    ThreeFlags('H', ":", 'M', 'S', read, show);
    assert "%H:%M:%S" == ['%', 'H'] + ":" + ['%', 'M'] + ":" + ['%', 'S'];
  }

  lemma ClockShows(e: Env, style: Style)
    requires Sensible(e, style)
    ensures var show := Showing(e, style);
      show(Clock24) == show(Hour24) + ":" + show(Minute) + ":" + show(Second)
  {
  }

  lemma FlagIs(flag: char, f: Formatter, p: string, read: string -> string, show: Formatter -> string)
    requires IsReading(read, show) && Known(flag) == Some(f) && Reads(p, show(f), read)
    ensures Interchangeable(['%', flag], p, read)
  {
    ReadsFlag(flag, read, show);
    SameReading(['%', flag], p, show(f), read);
  }

  /** `%T` and `%X` are `%H:%M:%S`. */
  lemma ClockExpands(e: Env, style: Style)
    requires Sensible(e, style)
    ensures Interchangeable("%T", "%H:%M:%S", Reading(Showing(e, style)))
    ensures Interchangeable("%X", "%H:%M:%S", Reading(Showing(e, style)))
  {
    var show := Showing(e, style);
    var read := Reading(show);
    ReadingReads(show);
    ClockPattern(read, show);
    ClockShows(e, style);
    FlagIs('T', Clock24, "%H:%M:%S", read, show);
    FlagIs('X', Clock24, "%H:%M:%S", read, show);
  }

  lemma HourMinutePattern(read: string -> string, show: Formatter -> string)
    requires IsReading(read, show)
    ensures Reads("%H:%M", show(Hour24) + ":" + show(Minute), read)
  {
    TwoFlags('H', ":", 'M', read, show);
    assert "%H:%M" == ['%', 'H'] + ":" + ['%', 'M'];
  }

  lemma HourMinuteShows(e: Env, style: Style)
    requires Sensible(e, style)
    ensures var show := Showing(e, style); show(HourMinute) == show(Hour24) + ":" + show(Minute)
  {
  }

  /** `%R` is `%H:%M`. */
  lemma HourMinuteExpands(e: Env, style: Style)
    requires Sensible(e, style)
    ensures Interchangeable("%R", "%H:%M", Reading(Showing(e, style)))
  {
    var show := Showing(e, style);
    var read := Reading(show);
    ReadingReads(show);
    HourMinutePattern(read, show);
    HourMinuteShows(e, style);
    FlagIs('R', HourMinute, "%H:%M", read, show);
  }

  lemma Clock12Pattern(read: string -> string, show: Formatter -> string)
    requires IsReading(read, show)
    ensures Reads("%I:%M:%S %p",
                  show(Hour12) + ":" + show(Minute) + ":" + show(Second) + " " + show(AmPmMark), read)
  {
    ThreeFlags('I', ":", 'M', 'S', read, show);
    var p := ['%', 'I'] + ":" + ['%', 'M'] + ":" + ['%', 'S'];
    var text := show(Hour12) + ":" + show(Minute) + ":" + show(Second);
    ThenText(p, text, " ", read, show);
    ThenFlag(p + " ", text + " ", 'p', read, show);
    assert "%I:%M:%S %p" == p + " " + ['%', 'p'];
  }

  lemma Clock12Shows(e: Env, style: Style)
    requires Sensible(e, style)
    ensures var show := Showing(e, style);
      show(Clock12) == show(Hour12) + ":" + show(Minute) + ":" + show(Second) + " " + show(AmPmMark)
  {
  }

  /** `%r` is `%I:%M:%S %p`. */
  lemma Clock12Expands(e: Env, style: Style)
    requires Sensible(e, style)
    ensures Interchangeable("%r", "%I:%M:%S %p", Reading(Showing(e, style)))
  {
    var show := Showing(e, style);
    var read := Reading(show);
    ReadingReads(show);
    Clock12Pattern(read, show);
    Clock12Shows(e, style);
    FlagIs('r', Clock12, "%I:%M:%S %p", read, show);
  }

  lemma ShortDatePattern(read: string -> string, show: Formatter -> string)
    requires IsReading(read, show)
    ensures Reads("%m/%d/%C", show(Month) + "/" + show(MonthDay) + "/" + show(ShortYear), read)
  {
    ThreeFlags('m', "/", 'd', 'C', read, show);
    assert "%m/%d/%C" == ['%', 'm'] + "/" + ['%', 'd'] + "/" + ['%', 'C'];
  }

  lemma ShortDateShows(e: Env, style: Style)
    requires Sensible(e, style)
    ensures var show := Showing(e, style);
      show(ShortDate) == show(Month) + "/" + show(MonthDay) + "/" + show(ShortYear)
  {
  }

  /** `%D` and `%x` are `%m/%d/%C`. */
  lemma ShortDateExpands(e: Env, style: Style)
    requires Sensible(e, style)
    ensures Interchangeable("%D", "%m/%d/%C", Reading(Showing(e, style)))
    ensures Interchangeable("%x", "%m/%d/%C", Reading(Showing(e, style)))
  {
    var show := Showing(e, style);
    var read := Reading(show);
    ReadingReads(show);
    ShortDatePattern(read, show);
    ShortDateShows(e, style);
    FlagIs('D', ShortDate, "%m/%d/%C", read, show);
    FlagIs('x', ShortDate, "%m/%d/%C", read, show);
  }

  // ---- where the documented meaning fails --------------------------------------------------------

  /** The twelve-hour clock is documented as 1-12. It is, for hours of the day, except at midnight. */
  lemma TwelveHourClock(tm: Tm)
    ensures 1 <= To12h(tm) <= 12 <==> 1 <= tm.hour <= 24
    ensures 0 <= tm.hour <= 23 ==> (1 <= To12h(tm) <= 12 <==> tm.hour != 0)
  {
  }

  lemma MidnightIsZero(e: Env)
    requires Sensible(e, Standard()) && e.tm.hour == 0
    ensures Interpret("%I", Showing(e, Standard())) == "00"
  {
    TwelveHourReads(Showing(e, Standard()));
    TwelveHourShows(e, Standard());
    PadZero();
  }

  lemma TwelveHourReads(show: Formatter -> string)
    ensures Interpret("%I", show) == show(Hour12)
  {
    ReadingReads(show);
    ReadsFlag('I', Reading(show), show);
    ReadsAlone("%I", show(Hour12), Reading(show));
  }

  lemma TwelveHourShows(e: Env, style: Style)
    requires Sensible(e, style)
    ensures Showing(e, style)(Hour12) == style.pad(To12h(e.tm), 2)
  {
  }

  lemma PadZero()
    ensures Pad(0, 2) == "00"
  {
    assert Decimal(0) == "0";
    assert Repeat('0', 1) == "0";
  }

  lemma PadEndsInDigit(v: int, width: nat)
    ensures Pad(v, width) != "" && '0' <= Pad(v, width)[|Pad(v, width)| - 1] <= '9'
  {
    var spec := Spec(width, '0', AlignDefault, -1, false, false, false, false, '\0');
    var digits := Decimal(Magnitude(v));
    assert digits != "" && '0' <= digits[|digits| - 1] <= '9' by {
      DecimalIsDigits(Magnitude(v));
    }
    LastOfThree(FrameFor(v, spec, "").left, digits);
  }

  lemma LastOfThree(left: string, digits: string)
    requires digits != ""
    ensures var s := left + digits + ""; s != "" && s[|s| - 1] == digits[|digits| - 1]
  {
  }

  /** `%y` is no flag and shows itself. */
  lemma DocumentedDatePattern(read: string -> string, show: Formatter -> string)
    requires IsReading(read, show)
    ensures Reads("%m/%d/%y", show(Month) + "/" + show(MonthDay) + "/" + "%y", read)
  {
    ThreeFlags('m', "/", 'd', 'y', read, show);
    assert "%m/%d/%y" == ['%', 'm'] + "/" + ['%', 'd'] + "/" + ['%', 'y'];
  }

  lemma DocumentedDateReads(show: Formatter -> string)
    ensures Interpret("%m/%d/%y", show) == show(Month) + "/" + show(MonthDay) + "/" + "%y"
  {
    ReadingReads(show);
    DocumentedDatePattern(Reading(show), show);
    ReadsAlone("%m/%d/%y", show(Month) + "/" + show(MonthDay) + "/" + "%y", Reading(show));
  }

  lemma ShortDateReads(show: Formatter -> string)
    ensures Interpret("%D", show) == show(ShortDate)
  {
    ReadingReads(show);
    ReadsFlag('D', Reading(show), show);
    ReadsAlone("%D", show(ShortDate), Reading(show));
  }

  /** `%D` shows what its documented `%m/%d/%y` shows only if the year pads to `%y` ... */
  lemma ShortDateIsDocumentedIff(e: Env, style: Style)
    requires Sensible(e, style)
    ensures var show := Showing(e, style);
      Interpret("%D", show) == Interpret("%m/%d/%y", show) <==> show(ShortYear) == "%y"
  {
    var show := Showing(e, style);
    DocumentedDateReads(show);
    ShortDateReads(show);
    ShortDateShows(e, style);
    SameTail(show(Month) + "/" + show(MonthDay) + "/", show(ShortYear), "%y");
  }

  lemma SameTail(a: string, b: string, c: string)
    ensures a + b == a + c <==> b == c
  {
    assert (a + b)[|a|..] == b && (a + c)[|a|..] == c;
  }

  lemma ShortYearShows(e: Env)
    requires Sensible(e, Standard())
    ensures Showing(e, Standard())(ShortYear) == Pad(ModTruncated(e.tm.year, 100), 2)
  {
  }

  /** ... which it never does. */
  lemma ShortDateIsNotDocumented(e: Env)
    requires Sensible(e, Standard())
    ensures Interpret("%D", Showing(e, Standard())) != Interpret("%m/%d/%y", Showing(e, Standard()))
  {
    ShortDateIsDocumentedIff(e, Standard());
    ShortYearShows(e);
    PadEndsInDigit(ModTruncated(e.tm.year, 100), 2);
  }

  // ---- the full format ---------------------------------------------------------------------------

  const FULL_PATTERN := "[%Y-%m-%d %H:%M:%S.%e] [%n] [%l] %v"

  predicate IsInt(v: int) {
    -0x8000_0000 <= v < 0x8000_0000
  }

  /** The calendar fields are C++ ints, and adding 1900 to the year does not overflow. */
  predicate IntFields(tm: Tm) {
    && IsInt(tm.sec) && IsInt(tm.min) && IsInt(tm.hour) && IsInt(tm.mday)
    && IsInt(tm.year + 1900)
  }

  function DateShown(show: Formatter -> string): string {
    "[" + show(FullYear) + "-" + show(Month) + "-" + show(MonthDay)
    + " " + show(Hour24) + ":" + show(Minute) + ":" + show(Second) + "." + show(Millis)
  }

  function Ending(date: string, show: Formatter -> string): string {
    date + "] " + "[" + show(Name) + "] " + "[" + show(Level) + "] " + show(Payload)
  }

  lemma CalendarPattern(read: string -> string, show: Formatter -> string)
    requires IsReading(read, show)
    ensures Reads("[" + "%Y" + "-" + "%m" + "-" + "%d",
                  "[" + show(FullYear) + "-" + show(Month) + "-" + show(MonthDay), read)
  {
    ReadsText("[", read, show);
    ThenFlag("[", "[", 'Y', read, show);
    var p, a := "[" + "%Y", "[" + show(FullYear);
    ThenText(p, a, "-", read, show);
    ThenFlag(p + "-", a + "-", 'm', read, show);
    p, a := p + "-" + "%m", a + "-" + show(Month);
    ThenText(p, a, "-", read, show);
    ThenFlag(p + "-", a + "-", 'd', read, show);
  }

  lemma TimePattern(p: string, a: string, read: string -> string, show: Formatter -> string)
    requires IsReading(read, show) && Reads(p, a, read)
    ensures Reads(p + " " + "%H" + ":" + "%M" + ":" + "%S" + "." + "%e",
                  a + " " + show(Hour24) + ":" + show(Minute) + ":" + show(Second) + "." + show(Millis), read)
  {
    ThenText(p, a, " ", read, show);
    ThenFlag(p + " ", a + " ", 'H', read, show);
    var q, b := p + " " + "%H", a + " " + show(Hour24);
    ThenText(q, b, ":", read, show);
    ThenFlag(q + ":", b + ":", 'M', read, show);
    q, b := q + ":" + "%M", b + ":" + show(Minute);
    ThenText(q, b, ":", read, show);
    ThenFlag(q + ":", b + ":", 'S', read, show);
    q, b := q + ":" + "%S", b + ":" + show(Second);
    ThenText(q, b, ".", read, show);
    ThenFlag(q + ".", b + ".", 'e', read, show);
  }

  lemma EndingPattern(p: string, a: string, read: string -> string, show: Formatter -> string)
    requires IsReading(read, show) && Reads(p, a, read)
    ensures Reads(p + "] " + "[" + "%n" + "] " + "[" + "%l" + "] " + "%v", Ending(a, show), read)
  {
    ThenText(p, a, "] ", read, show);
    var q, b := p + "] ", a + "] ";
    ThenText(q, b, "[", read, show);
    ThenFlag(q + "[", b + "[", 'n', read, show);
    q, b := q + "[" + "%n", b + "[" + show(Name);
    ThenText(q, b, "] ", read, show);
    ThenText(q + "] ", b + "] ", "[", read, show);
    q, b := q + "] " + "[", b + "] " + "[";
    ThenFlag(q, b, 'l', read, show);
    q, b := q + "%l", b + show(Level);
    ThenText(q, b, "] ", read, show);
    ThenFlag(q + "] ", b + "] ", 'v', read, show);
  }

  lemma FullPatternParts()
    ensures FULL_PATTERN
         == "[" + "%Y" + "-" + "%m" + "-" + "%d" + " " + "%H" + ":" + "%M" + ":" + "%S" + "." + "%e"
            + "] " + "[" + "%n" + "] " + "[" + "%l" + "] " + "%v"
  {
  }

  lemma FullPatternShows(read: string -> string, show: Formatter -> string)
    requires IsReading(read, show)
    ensures Reads(FULL_PATTERN, Ending(DateShown(show), show), read)
  {
    CalendarPattern(read, show);
    TimePattern("[" + "%Y" + "-" + "%m" + "-" + "%d",
                "[" + show(FullYear) + "-" + show(Month) + "-" + show(MonthDay), read, show);
    EndingPattern("[" + "%Y" + "-" + "%m" + "-" + "%d" + " " + "%H" + ":" + "%M" + ":" + "%S" + "." + "%e",
                  DateShown(show), read, show);
    FullPatternParts();
  }

  function Dashes(s: string): nat {
    if s == "" then 0 else Dashes(s[1..]) + if s[0] == '-' then 1 else 0
  }

  lemma {:induction false} DashesAppend(a: string, b: string)
    ensures Dashes(a + b) == Dashes(a) + Dashes(b)
  {
    if a == "" {
      assert a + b == b;
    } else {
      DashesAppend(a[1..], b);
      assert (a + b)[1..] == a[1..] + b;
    }
  }

  lemma {:induction false} NoDashes(s: string)
    ensures '-' !in s <==> Dashes(s) == 0
  {
    if s != "" {
      NoDashes(s[1..]);
      assert s == [s[0]] + s[1..];
    }
  }

  lemma DashesAround(a: string, sep: char, b: string)
    ensures Dashes(a + [sep] + b) == Dashes(a) + Dashes(b) + if sep == '-' then 1 else 0
  {
    DashesAppend(a + [sep], b);
    DashesAppend(a, [sep]);
    assert [sep][1..] == "";
  }

  function Minus(v: int): nat {
    if v < 0 then 1 else 0
  }

  /** Padding shows a minus sign for a negative number and for no other. */
  ghost predicate MarksSign(pad: (int, nat) -> string) {
    forall v, w :: Dashes(pad(v, w)) == Minus(v)
  }

  lemma DashesInDate(year: int, month: int, day: int, hour: int, min: int, sec: int, ms: int,
                     pad: (int, nat) -> string)
    requires MarksSign(pad)
    ensures Dashes(DateText(year, month, day, hour, min, sec, ms, pad))
         == 2 + Minus(year) + Minus(month) + Minus(day) + Minus(hour) + Minus(min) + Minus(sec) + Minus(ms)
  {
    var s := "[" + SignedDecimal(year);
    DashesOfDecimal(year);
    DashesAround("", '[', SignedDecimal(year));
    DashesAround(s, '-', pad(month, 2));
    s := s + "-" + pad(month, 2);
    DashesAround(s, '-', pad(day, 2));
    s := s + "-" + pad(day, 2);
    DashesAround(s, ' ', pad(hour, 2));
    s := s + " " + pad(hour, 2);
    DashesAround(s, ':', pad(min, 2));
    s := s + ":" + pad(min, 2);
    DashesAround(s, ':', pad(sec, 2));
    s := s + ":" + pad(sec, 2);
    DashesAround(s, '.', pad(ms, 3));
  }

  lemma DecimalHasNoDashes(n: nat)
    ensures '-' !in Decimal(n)
  {
    forall c | c in Decimal(n) ensures c != '-' {
      var i :| 0 <= i < |Decimal(n)| && c == Decimal(n)[i];
      assert Decimal(n)[i] == DigitChar(Digits(n, 10)[i], false);
    }
  }

  lemma DashesOfDecimal(v: int)
    ensures Dashes(SignedDecimal(v)) == Minus(v)
  {
    DecimalHasNoDashes(Magnitude(v));
    NoDashes(Decimal(Magnitude(v)));
    DashesAppend("-", Decimal(Magnitude(v)));
    assert Dashes("-") == 1;
  }

  lemma DashesOfPad(v: int, width: nat)
    ensures Dashes(Pad(v, width)) == Minus(v)
  {
    var spec := Spec(width, '0', AlignDefault, -1, false, false, false, false, '\0');
    var digits := Decimal(Magnitude(v));
    var prefix := SignPrefix(v, spec) + BasePrefix(spec);
    var zeros := if width <= |prefix| + |digits| then "" else Repeat('0', width - |prefix| - |digits|);
    assert Pad(v, width) == zeros + prefix + digits + "";
    DecimalHasNoDashes(Magnitude(v));
    NoDashes(digits);
    NoDashes(zeros);
    DashesAppend(zeros + prefix, digits);
    DashesAppend(zeros, prefix);
    assert prefix == if v < 0 then "-" else "";
    assert Dashes("-") == 1 && Dashes("") == 0;
    assert zeros + prefix + digits + "" == zeros + prefix + digits;
  }

  lemma PadMarksSign()
    ensures MarksSign(Pad)
  {
    forall v: int, w: nat ensures Dashes(Pad(v, w)) == Minus(v) {
      DashesOfPad(v, w);
    }
  }

  /** No number of the full format's date is negative. */
  predicate NothingNegative(e: Env) {
    && e.tm.year + 1900 >= 0 && e.tm.mday >= 0 && e.tm.hour >= 0
    && e.tm.min >= 0 && e.tm.sec >= 0 && MillisOf(e) >= 0
  }

  /** The date the expanded pattern shows, with every number signed. */
  function ExpandedDate(e: Env, pad: (int, nat) -> string): string {
    DateText(e.tm.year + 1900, e.tm.mon + 1, e.tm.mday, e.tm.hour, e.tm.min, e.tm.sec, MillisOf(e), pad)
  }

  lemma UnsignedOf(v: int)
    requires IsInt(v)
    ensures Unsigned(v) == (if v < 0 then v + TWO_TO_32 else v)
  {
  }

  lemma MillisFit(e: Env)
    ensures -1000 < MillisOf(e) < 1000
  {
  }

  /** The number of minus signs tells the two dates apart. */
  lemma DatesAgree(e: Env, pad: (int, nat) -> string)
    requires e.tm.mon < 12 && IntFields(e.tm) && MarksSign(pad)
    ensures FullDate(e, pad) == ExpandedDate(e, pad) <==> NothingNegative(e)
  {
    var year, tm, ms := e.tm.year + 1900, e.tm, MillisOf(e);
    MillisFit(e);
    SameDate(year, tm.mon + 1, tm.mday, tm.hour, tm.min, tm.sec, ms, pad);
  }

  lemma SameDate(year: int, month: int, day: int, hour: int, min: int, sec: int, ms: int, pad: (int, nat) -> string)
    requires IsInt(year) && IsInt(month) && IsInt(day) && IsInt(hour) && IsInt(min) && IsInt(sec) && IsInt(ms)
    requires month >= 0 && MarksSign(pad)
    ensures DateText(year, month, day, hour, min, sec, ms, pad)
         == DateText(Unsigned(year), Unsigned(month), Unsigned(day), Unsigned(hour), Unsigned(min), Unsigned(sec),
                     Unsigned(ms), pad)
      <==> year >= 0 && day >= 0 && hour >= 0 && min >= 0 && sec >= 0 && ms >= 0
  {
    if year >= 0 && day >= 0 && hour >= 0 && min >= 0 && sec >= 0 && ms >= 0 {
      UnsignedOf(year);
      UnsignedOf(month);
      UnsignedOf(day);
      UnsignedOf(hour);
      UnsignedOf(min);
      UnsignedOf(sec);
      UnsignedOf(ms);
    } else {
      DashesInDate(year, month, day, hour, min, sec, ms, pad);
      DashesInDate(Unsigned(year), Unsigned(month), Unsigned(day), Unsigned(hour), Unsigned(min), Unsigned(sec),
                   Unsigned(ms), pad);
    }
  }

  lemma SameEnding(a: string, b: string, show: Formatter -> string)
    requires Ending(a, show) == Ending(b, show)
    ensures a == b
  {
    assert |Ending(a, show)| - |a| == |Ending(b, show)| - |b|;
    assert Ending(a, show)[..|a|] == a && Ending(b, show)[..|b|] == b;
  }

  lemma FullShows(e: Env, style: Style)
    requires Sensible(e, style)
    ensures Showing(e, style)(Full) == Ending(FullDate(e, style.pad), Showing(e, style))
  {
  }

  lemma CalendarShows(e: Env, style: Style)
    requires Sensible(e, style)
    ensures var show := Showing(e, style);
      && show(FullYear) == SignedDecimal(e.tm.year + 1900)
      && show(Month) == style.pad(e.tm.mon + 1, 2) && show(MonthDay) == style.pad(e.tm.mday, 2)
  {
  }

  lemma TimeShows(e: Env, style: Style)
    requires Sensible(e, style)
    ensures var show := Showing(e, style);
      && show(Hour24) == style.pad(e.tm.hour, 2) && show(Minute) == style.pad(e.tm.min, 2)
      && show(Second) == style.pad(e.tm.sec, 2) && show(Millis) == style.pad(MillisOf(e), 3)
  {
  }

  lemma DateShows(e: Env, style: Style, show: Formatter -> string)
    requires show(FullYear) == SignedDecimal(e.tm.year + 1900)
    requires show(Month) == style.pad(e.tm.mon + 1, 2) && show(MonthDay) == style.pad(e.tm.mday, 2)
    requires show(Hour24) == style.pad(e.tm.hour, 2) && show(Minute) == style.pad(e.tm.min, 2)
    requires show(Second) == style.pad(e.tm.sec, 2) && show(Millis) == style.pad(MillisOf(e), 3)
    ensures DateShown(show) == ExpandedDate(e, style.pad)
  {
  }

  lemma FullReads(read: string -> string, show: Formatter -> string, date: string)
    requires IsReading(read, show) && show(Full) == Ending(date, show)
    ensures read("%+") == read(FULL_PATTERN) <==> date == DateShown(show)
  {
    ReadsFlag('+', read, show);
    ReadsAlone("%+", show(Full), read);
    FullPatternShows(read, show);
    ReadsAlone(FULL_PATTERN, Ending(DateShown(show), show), read);
    if show(Full) == Ending(DateShown(show), show) {
      SameEnding(date, DateShown(show), show);
    }
  }

  lemma FullExpandsWhen(e: Env, style: Style)
    requires Sensible(e, style) && e.tm.mon < 12 && IntFields(e.tm) && MarksSign(style.pad)
    ensures Interpret("%+", Showing(e, style)) == Interpret(FULL_PATTERN, Showing(e, style)) <==> NothingNegative(e)
  {
    FullShows(e, style);
    CalendarShows(e, style);
    TimeShows(e, style);
    DateShows(e, style, Showing(e, style));
    ReadingReads(Showing(e, style));
    FullReads(Reading(Showing(e, style)), Showing(e, style), FullDate(e, style.pad));
    DatesAgree(e, style.pad);
  }

  /** `%+` shows what its documented pattern shows exactly when none of its numbers is negative. */
  lemma FullExpandsIff(e: Env)
    requires Sensible(e, Standard()) && IntFields(e.tm)
    ensures Interpret("%+", Showing(e, Standard())) == Interpret(FULL_PATTERN, Showing(e, Standard()))
       <==> NothingNegative(e)
  {
    PadMarksSign();
    FullExpandsWhen(e, Standard());
  }
}
