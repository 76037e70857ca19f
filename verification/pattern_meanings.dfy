/** What each flag of a log pattern shows, in plain text. */
module PatternMeanings {
  import opened Options
  import Arithmetic
  import opened Numerals
  import opened FormatIntegers
  import opened WriteIntegers
  import opened IntegerTexts
  import opened Patterns
  import opened PatternExpansions

  // ---- fixed numbers of digits ---------------------------------------------------------------------

  /** A text with zeros in front, up to a width. */
  function Filled(t: string, width: nat): string
    decreases width - |t|
  {
    if |t| >= width then t else Filled("0" + t, width)
  }

  function Ten(k: nat): (t: nat)
    ensures t >= 1
  {
    if k == 0 then 1 else 10 * Ten(k - 1)
  }

  /** The last `w` digits of a number. */
  function LastDigits(n: nat, w: nat): (t: string)
    ensures |t| == w
  {
    if w == 0 then "" else LastDigits(n / 10, w - 1) + [('0' as int + n % 10) as char]
  }

  lemma {:induction false} FilledIs(t: string, zeros: string)
    requires AllOf(zeros, '0', |zeros|)
    ensures Filled(t, |zeros| + |t|) == zeros + t
    decreases |zeros|
  {
    if zeros == "" {
      assert "" + t == t;
    } else {
      var init := zeros[..|zeros| - 1];
      FilledIs("0" + t, init);
      assert zeros == init + "0";
      assert init + ("0" + t) == zeros + t;
    }
  }

  /** Padding is filling with zeros, in front of the sign if there is one. */
  lemma PadFills(v: int, width: nat)
    ensures Pad(v, width) == Filled(SignedDecimal(v), width)
  {
    var spec := Spec(width, '0', AlignDefault, -1, false, false, false, false, '\0');
    var p, q := SignPrefix(v, spec) + BasePrefix(spec), DigitText(Magnitude(v), '\0', "");
    SignIs(v, spec);
    BaseIs(spec);
    IntegerLaidOut(v, spec, "");
    PrefixAndDigits(v, p, q);
    if |p| + |q| < width {
      var zeros :| AllOf(zeros, '0', width - |p| - |q|) && Pad(v, width) == zeros + (p + q);
      FilledIs(p + q, zeros);
    }
  }

  lemma PrefixAndDigits(v: int, p: string, q: string)
    requires q == Decimal(Magnitude(v)) && p == if v < 0 then "-" + "" else "" + ""
    ensures p + q == SignedDecimal(v)
  {
    assert "-" + "" == "-" && "" + "" == "" && "" + q == q;
  }

  lemma {:induction false} DecimalEnds(a: nat, b: nat, w: nat)
    requires a >= 1 && b < Ten(w)
    ensures Decimal(a * Ten(w) + b) == Decimal(a) + LastDigits(b, w)
    decreases w
  {
    if w == 0 {
      assert Decimal(a) + "" == Decimal(a);
    } else {
      var n := a * Ten(w) + b;
      TenStep(a, b, w);
      DecimalEnds(a, b / 10, w - 1);
      DecimalStep(n);
      assert Decimal(a) + LastDigits(b / 10, w - 1) + [('0' as int + b % 10) as char] == Decimal(a) + LastDigits(b, w);
    }
  }

  lemma TenStep(a: nat, b: nat, w: nat)
    requires w >= 1 && b < Ten(w)
    ensures var n := a * Ten(w) + b; n / 10 == a * Ten(w - 1) + b / 10 && n % 10 == b % 10 && b / 10 < Ten(w - 1)
    ensures a >= 1 ==> a * Ten(w) + b >= 10
  {
    var t := Ten(w - 1);
    TensMove(a, t);
  }

  lemma TensMove(a: nat, t: nat)
    ensures a * (10 * t) == 10 * (a * t)
    ensures a >= 1 && t >= 1 ==> a * t >= 1
  {
    if a >= 1 && t >= 1 {
      assert a * t == (a - 1) * t + t;
    }
  }

  lemma DecimalStep(n: nat)
    ensures n >= 10 ==> Decimal(n) == Decimal(n / 10) + [('0' as int + n % 10) as char]
    ensures n < 10 ==> Decimal(n) == [('0' as int + n) as char]
  {
    NumeralStep(n, 10, false);
  }

  /** A number that fits is filled up to exactly that many digits. */
  lemma {:induction false} FilledIsLast(n: nat, w: nat)
    requires n < Ten(w) && w >= 1
    ensures Filled(Decimal(n), w) == LastDigits(n, w)
    decreases w
  {
    DecimalStep(n);
    if n < 10 {
      ZerosInFront(n, w);
    } else {
      TenStep(0, n, w);
      FilledIsLast(n / 10, w - 1);
      FilledAppends(Decimal(n / 10), ('0' as int + n % 10) as char, w - 1);
    }
  }

  lemma {:induction false} ZerosInFront(n: nat, w: nat)
    requires n < 10 && w >= 1
    ensures Filled([('0' as int + n) as char], w) == LastDigits(n, w)
  {
    var zeros := Repeat('0', w - 1);
    FilledIs([('0' as int + n) as char], zeros);
    NoDigits(w - 1);
  }

  lemma {:induction false} NoDigits(w: nat)
    ensures LastDigits(0, w) == Repeat('0', w)
  {
    if w > 0 {
      NoDigits(w - 1);
      assert Repeat('0', w - 1) + ['0'] == Repeat('0', w);
    }
  }

  lemma {:induction false} FilledAppends(t: string, c: char, w: nat)
    ensures Filled(t + [c], w + 1) == Filled(t, w) + [c]
    decreases w - |t|
  {
    if |t| < w {
      FilledAppends("0" + t, c, w);
      assert "0" + (t + [c]) == ("0" + t) + [c];
    }
  }

  /** The first digits of the last `w` are the last digits of the quotient. */
  lemma {:induction false} FirstOfLast(n: nat, w: nat, k: nat)
    requires k <= w
    ensures LastDigits(n, w)[..k] == LastDigits(n / Ten(w - k), k)
    decreases w
  {
    if k < w {
      FirstOfLast(n / 10, w - 1, k);
      DivideTwice(n, Ten(w - 1 - k));
      assert LastDigits(n, w)[..k] == LastDigits(n / 10, w - 1)[..k];
    }
  }

  lemma DivideTwice(n: nat, t: nat)
    requires t >= 1
    ensures n / 10 / t == n / (10 * t)
  {
    var q, r := n / 10 / t, n / 10 % t;
    Arithmetic.DivModIdentity(n / 10, t);
    Arithmetic.DivModIdentity(n, 10);
    assert n == 10 * (q * t + r) + n % 10;
    assert 10 * (q * t) == q * (10 * t);
    Arithmetic.QuotientUnique(n, 10 * t, q, 10 * r + n % 10);
  }

  // ---- single flags --------------------------------------------------------------------------------

  /** What a pattern shows of a message. */
  function Shown(p: string, e: Env, style: Style): string
    requires Sensible(e, style)
  {
    Interpret(p, Showing(e, style))
  }

  /** Numbers are padded with zeros in front. */
  ghost predicate ZeroPads(style: Style) {
    forall v: int, w: nat :: style.pad(v, w) == Filled(SignedDecimal(v), w)
  }

  /** The style of the library pads so. */
  lemma StandardZeroPads()
    ensures ZeroPads(Standard())
  {
    var style := Standard();
    forall v: int, w: nat ensures style.pad(v, w) == Filled(SignedDecimal(v), w) {
      PadFills(v, w);
      }
  }

  lemma FlagAlone(flag: char, show: Formatter -> string)
    ensures Interpret(['%', flag], show) == FlagText(flag, show)
  {
    assert ['%', flag][2..] == "" && FlagText(flag, show) + "" == FlagText(flag, show);
  }

  lemma FlagShows(e: Env, style: Style, flag: char, f: Formatter)
    requires Sensible(e, style) && Known(flag) == Some(f)
    ensures Shown(['%', flag], e, style) == Emit(f, e, style)
  {
    FlagAlone(flag, Showing(e, style));
  }

  lemma NameFlag(e: Env, style: Style)
    requires Sensible(e, style) && ZeroPads(style)
    ensures Shown("%n", e, style) == e.msg.loggerName
  {
    FlagShows(e, style, 'n', Name);
  }

  lemma PayloadFlag(e: Env, style: Style)
    requires Sensible(e, style) && ZeroPads(style)
    ensures Shown("%v", e, style) == e.msg.raw
  {
    FlagShows(e, style, 'v', Payload);
  }

  lemma ThreadFlag(e: Env, style: Style)
    requires Sensible(e, style) && ZeroPads(style)
    ensures Shown("%t", e, style) == Decimal(e.msg.threadId)
  {
    FlagShows(e, style, 't', ThreadNumber);
  }

  lemma ProcessFlag(e: Env, style: Style)
    requires Sensible(e, style) && ZeroPads(style)
    ensures Shown("%P", e, style) == SignedDecimal(e.pid)
  {
    FlagShows(e, style, 'P', ProcessId);
  }

  lemma CounterFlag(e: Env, style: Style)
    requires Sensible(e, style) && ZeroPads(style)
    ensures Shown("%i", e, style) == Filled(Decimal(e.msg.msgId), 6)
  {
    FlagShows(e, style, 'i', Counter);
  }

  lemma YearFlag(e: Env, style: Style)
    requires Sensible(e, style) && ZeroPads(style)
    ensures Shown("%Y", e, style) == SignedDecimal(e.tm.year + 1900)
  {
    FlagShows(e, style, 'Y', FullYear);
  }

  lemma MonthNumberFlag(e: Env, style: Style)
    requires Sensible(e, style) && ZeroPads(style)
    ensures Shown("%m", e, style) == Filled(Decimal(e.tm.mon + 1), 2)
  {
    FlagShows(e, style, 'm', Month);
  }

  lemma DayNumberFlag(e: Env, style: Style)
    requires Sensible(e, style) && ZeroPads(style)
    ensures Shown("%d", e, style) == Filled(SignedDecimal(e.tm.mday), 2)
  {
    FlagShows(e, style, 'd', MonthDay);
  }

  lemma HourFlag(e: Env, style: Style)
    requires Sensible(e, style) && ZeroPads(style)
    ensures Shown("%H", e, style) == Filled(SignedDecimal(e.tm.hour), 2)
  {
    FlagShows(e, style, 'H', Hour24);
  }

  lemma TwelveHourFlag(e: Env, style: Style)
    requires Sensible(e, style) && ZeroPads(style)
    ensures Shown("%I", e, style) == Filled(SignedDecimal(if e.tm.hour >= 13 then e.tm.hour - 12 else e.tm.hour), 2)
  {
    FlagShows(e, style, 'I', Hour12);
  }

  lemma MinuteFlag(e: Env, style: Style)
    requires Sensible(e, style) && ZeroPads(style)
    ensures Shown("%M", e, style) == Filled(SignedDecimal(e.tm.min), 2)
  {
    FlagShows(e, style, 'M', Minute);
  }

  lemma SecondFlag(e: Env, style: Style)
    requires Sensible(e, style) && ZeroPads(style)
    ensures Shown("%S", e, style) == Filled(SignedDecimal(e.tm.sec), 2)
  {
    FlagShows(e, style, 'S', Second);
  }

  lemma HalfFlag(e: Env, style: Style)
    requires Sensible(e, style) && ZeroPads(style)
    ensures Shown("%p", e, style) == if e.tm.hour < 12 then "AM" else "PM"
  {
    FlagShows(e, style, 'p', AmPmMark);
  }

  lemma ShortYearFlag(e: Env, style: Style)
    requires Sensible(e, style) && ZeroPads(style) && e.tm.year >= 0
    ensures Shown("%C", e, style) == Filled(Decimal(e.tm.year % 100), 2)
  {
    FlagShows(e, style, 'C', ShortYear);
  }

  lemma SecondsFlag(e: Env, style: Style)
    requires Sensible(e, style) && e.msg.nanos >= 0
    ensures Shown("%E", e, style) == Decimal(e.msg.nanos / 1000000000)
  {
    FlagShows(e, style, 'E', EpochSeconds);
  }

  /** The message: logger, thread, process, counter and text. */
  lemma MessageFlags(e: Env, style: Style)
    requires Sensible(e, style) && ZeroPads(style)
    ensures Shown("%n", e, style) == e.msg.loggerName && Shown("%v", e, style) == e.msg.raw
    ensures Shown("%t", e, style) == Decimal(e.msg.threadId) && Shown("%P", e, style) == SignedDecimal(e.pid)
    ensures Shown("%i", e, style) == Filled(Decimal(e.msg.msgId), 6)
  {
    NameFlag(e, style);
    PayloadFlag(e, style);
    ThreadFlag(e, style);
    ProcessFlag(e, style);
    CounterFlag(e, style);
  }

  lemma LevelFlags(e: Env)
    requires Sensible(e, Standard())
    ensures Shown("%l", e, Standard()) == ["trace", "debug", "info", "warning", "error", "critical", "off"][e.msg.level]
    ensures Shown("%L", e, Standard()) == ["T", "D", "I", "W", "E", "C", "O"][e.msg.level]
  {
    FlagShows(e, Standard(), 'l', Level);
    FlagShows(e, Standard(), 'L', ShortLevel);
  }

  lemma DayFlags(e: Env)
    requires Sensible(e, Standard())
    ensures Shown("%a", e, Standard()) == ["Sun", "Mon", "Tue", "Wed", "Thu", "Fri", "Sat"][e.tm.wday]
    ensures Shown("%A", e, Standard())
         == ["Sunday", "Monday", "Tuesday", "Wednesday", "Thursday", "Friday", "Saturday"][e.tm.wday]
  {
    FlagShows(e, Standard(), 'a', AbbrevDay);
    FlagShows(e, Standard(), 'A', FullDay);
  }

  /** The fourth letter of September is the library's. */
  lemma MonthFlags(e: Env)
    requires Sensible(e, Standard())
    ensures Shown("%b", e, Standard()) == Shown("%h", e, Standard())
         == ["Jan", "Feb", "Mar", "Apr", "May", "Jun", "Jul", "Aug", "Sept", "Oct", "Nov", "Dec"][e.tm.mon]
    ensures Shown("%B", e, Standard())
         == ["January", "February", "March", "April", "May", "June", "July", "August", "September", "October",
             "November", "December"][e.tm.mon]
  {
    FlagShows(e, Standard(), 'b', AbbrevMonth);
    FlagShows(e, Standard(), 'h', AbbrevMonth);
    FlagShows(e, Standard(), 'B', FullMonth);
  }

  /** The calendar: the year since zero, the month from one. */
  lemma DateFlags(e: Env, style: Style)
    requires Sensible(e, style) && ZeroPads(style)
    ensures Shown("%Y", e, style) == SignedDecimal(e.tm.year + 1900)
    ensures e.tm.year >= 0 ==> Shown("%C", e, style) == Filled(Decimal(e.tm.year % 100), 2)
    ensures Shown("%m", e, style) == Filled(Decimal(e.tm.mon + 1), 2)
    ensures Shown("%d", e, style) == Filled(SignedDecimal(e.tm.mday), 2)
  {
    YearFlag(e, style);
    MonthNumberFlag(e, style);
    DayNumberFlag(e, style);
    if e.tm.year >= 0 {
      ShortYearFlag(e, style);
    }
  }

  /** The clock, and the half of the day from noon on. */
  lemma ClockFlags(e: Env, style: Style)
    requires Sensible(e, style) && ZeroPads(style)
    ensures Shown("%H", e, style) == Filled(SignedDecimal(e.tm.hour), 2)
    ensures Shown("%I", e, style) == Filled(SignedDecimal(if e.tm.hour >= 13 then e.tm.hour - 12 else e.tm.hour), 2)
    ensures Shown("%M", e, style) == Filled(SignedDecimal(e.tm.min), 2)
    ensures Shown("%S", e, style) == Filled(SignedDecimal(e.tm.sec), 2)
    ensures Shown("%p", e, style) == if e.tm.hour < 12 then "AM" else "PM"
  {
    HourFlag(e, style);
    TwelveHourFlag(e, style);
    MinuteFlag(e, style);
    SecondFlag(e, style);
    HalfFlag(e, style);
  }

  // ---- the time since the epoch --------------------------------------------------------------------

  lemma PadLast(style: Style, n: nat, w: nat)
    requires ZeroPads(style) && n < Ten(w) && w >= 1
    ensures style.pad(n, w) == LastDigits(n, w)
  {
    FilledIsLast(n, w);
  }

  lemma Powers()
    ensures Ten(3) == 1000 && Ten(6) == 1000000 && Ten(9) == 1000000000
  {
    assert Ten(4) == 10000 && Ten(5) == 100000 && Ten(7) == 10000000 && Ten(8) == 100000000;
  }

  lemma MillisFlag(e: Env, style: Style)
    requires Sensible(e, style) && ZeroPads(style) && e.msg.nanos >= 0
    ensures Shown("%e", e, style) == LastDigits(e.msg.nanos / 1000000, 3)
  {
    FlagShows(e, style, 'e', Millis);
    Powers();
    PadLast(style, e.msg.nanos / 1000000 % 1000, 3);
    LastOfRest(e.msg.nanos / 1000000, 3);
  }

  lemma MicrosFlag(e: Env, style: Style)
    requires Sensible(e, style) && ZeroPads(style) && e.msg.nanos >= 0
    ensures Shown("%f", e, style) == LastDigits(e.msg.nanos / 1000, 6)
  {
    FlagShows(e, style, 'f', Micros);
    Powers();
    PadLast(style, e.msg.nanos / 1000 % 1000000, 6);
    LastOfRest(e.msg.nanos / 1000, 6);
  }

  lemma NanosFlag(e: Env, style: Style)
    requires Sensible(e, style) && ZeroPads(style) && e.msg.nanos >= 0
    ensures Shown("%F", e, style) == LastDigits(e.msg.nanos, 9)
  {
    FlagShows(e, style, 'F', Nanos);
    Powers();
    PadLast(style, e.msg.nanos % 1000000000, 9);
    LastOfRest(e.msg.nanos, 9);
  }

  /** The last digits are those of the remainder. */
  lemma {:induction false} LastOfRest(n: nat, w: nat)
    ensures LastDigits(n % Ten(w), w) == LastDigits(n, w)
    decreases w
  {
    if w > 0 {
      RestStep(n, Ten(w - 1));
      LastOfRest(n / 10, w - 1);
    }
  }

  lemma RestStep(n: nat, t: nat)
    requires t >= 1
    ensures n % (10 * t) / 10 == n / 10 % t && n % (10 * t) % 10 == n % 10
  {
    var q, r := n / 10 / t, n / 10 % t;
    Arithmetic.DivModIdentity(n / 10, t);
    Arithmetic.DivModIdentity(n, 10);
    assert n == 10 * (q * t + r) + n % 10;
    assert 10 * (q * t) == q * (10 * t);
    Arithmetic.QuotientUnique(n, 10 * t, q, 10 * r + n % 10);
  }

  lemma FrontDigits(n: nat)
    ensures LastDigits(n / 1000, 6) == LastDigits(n, 9)[..6] && LastDigits(n / 1000000, 3) == LastDigits(n, 9)[..3]
  {
    Powers();
    FirstOfLast(n, 9, 6);
    FirstOfLast(n, 9, 3);
  }

  lemma AllDigitsOf(n: nat)
    ensures n >= 1000000000 ==> Decimal(n / 1000000000) + LastDigits(n, 9) == Decimal(n)
    ensures n < 1000000000 ==> Decimal(n / 1000000000) == "0" && LastDigits(n, 9) == Filled(Decimal(n), 9)
  {
    Powers();
    if n >= 1000000000 {
      Arithmetic.DivModIdentity(n, 1000000000);
      DecimalEnds(n / 1000000000, n % 1000000000, 9);
      LastOfRest(n, 9);
    } else {
      FilledIsLast(n, 9);
      DecimalStep(0);
    }
  }

  /**
   * Seconds and nanoseconds spell the time since the epoch, with nine digits behind the seconds; micro- and
   * milliseconds are the front of those nine.
   */
  lemma FractionFlags(e: Env, style: Style)
    requires Sensible(e, style) && ZeroPads(style) && e.msg.nanos >= 0
    ensures |Shown("%F", e, style)| == 9
    ensures Shown("%f", e, style) == Shown("%F", e, style)[..6] && Shown("%e", e, style) == Shown("%F", e, style)[..3]
    ensures e.msg.nanos >= 1000000000 ==> Shown("%E", e, style) + Shown("%F", e, style) == Decimal(e.msg.nanos)
    ensures e.msg.nanos < 1000000000 ==>
      Shown("%E", e, style) == "0" && Shown("%F", e, style) == Filled(Decimal(e.msg.nanos), 9)
  {
    MillisFlag(e, style);
    MicrosFlag(e, style);
    NanosFlag(e, style);
    SecondsFlag(e, style);
    FrontDigits(e.msg.nanos);
    AllDigitsOf(e.msg.nanos);
  }

  // ---- composites and the rest ---------------------------------------------------------------------

  /** Day, month, day of the month, time and year with blanks between them. */
  function DateLine(day: string, month: string, number: string, time: string, year: string): string {
    day + " " + month + " " + number + " " + time + " " + year
  }

  lemma DateAndTimeShows(e: Env, style: Style)
    requires Sensible(e, style)
    ensures Emit(DateAndTime, e, style)
         == DateLine(style.days[e.tm.wday], style.months[e.tm.mon], SignedDecimal(e.tm.mday),
                     Join3(e.tm.hour, e.tm.min, e.tm.sec, ':', style.pad), SignedDecimal(e.tm.year + 1900))
  {
  }

  lemma DayAndMonthShow(e: Env, style: Style)
    requires Sensible(e, style)
    ensures Shown("%a", e, style) == style.days[e.tm.wday] && Shown("%b", e, style) == style.months[e.tm.mon]
  {
    FlagShows(e, style, 'a', AbbrevDay);
    FlagShows(e, style, 'b', AbbrevMonth);
  }

  lemma TimeShown(e: Env, style: Style)
    requires Sensible(e, style)
    ensures Shown("%T", e, style) == Join3(e.tm.hour, e.tm.min, e.tm.sec, ':', style.pad)
  {
    FlagShows(e, style, 'T', Clock24);
  }

  lemma YearShown(e: Env, style: Style)
    requires Sensible(e, style)
    ensures Shown("%Y", e, style) == SignedDecimal(e.tm.year + 1900)
  {
    FlagShows(e, style, 'Y', FullYear);
  }

  lemma DateLineShown(e: Env, style: Style)
    requires Sensible(e, style)
    ensures Shown("%c", e, style) == Emit(DateAndTime, e, style)
  {
    FlagShows(e, style, 'c', DateAndTime);
  }

  /** The full date and time, in terms of the single flags. */
  lemma DateAndTimeFlag(e: Env, style: Style)
    requires Sensible(e, style)
    ensures Shown("%c", e, style)
         == DateLine(Shown("%a", e, style), Shown("%b", e, style), SignedDecimal(e.tm.mday), Shown("%T", e, style),
                     Shown("%Y", e, style))
  {
    DateLineShown(e, style);
    DateAndTimeShows(e, style);
    DayAndMonthShow(e, style);
    TimeShown(e, style);
    YearShown(e, style);
  }

  /** The offset from UTC: whole hours and minutes, the seconds dropped, and the sign of what is left. */
  lemma ZoneFlag(e: Env, style: Style, h: nat, m: nat, s: nat, west: bool)
    requires Sensible(e, style) && ZeroPads(style) && h < 100 && m < 60 && s < 60
    requires e.tm.gmtoff == if west then -(3600 * h + 60 * m + s) else 3600 * h + 60 * m + s
    ensures Shown("%z", e, style)
         == (if west && (h > 0 || m > 0) then "-" else "+") + LastDigits(h, 2) + ":" + LastDigits(m, 2)
  {
    ZoneShows(e, style);
    ZoneIs(e.tm, h, m, s, west, style.pad);
    PadLast(style, h, 2);
    PadLast(style, m, 2);
  }

  lemma ZoneShows(e: Env, style: Style)
    requires Sensible(e, style)
    ensures Shown("%z", e, style) == ZoneText(e.tm, style.pad)
  {
    FlagShows(e, style, 'z', Zone);
  }

  lemma ZoneIs(tm: Tm, h: nat, m: nat, s: nat, west: bool, pad: (int, nat) -> string)
    requires m < 60 && s < 60 && tm.gmtoff == if west then -(3600 * h + 60 * m + s) else 3600 * h + 60 * m + s
    ensures ZoneText(tm, pad) == (if west && (h > 0 || m > 0) then "-" else "+") + pad(h, 2) + ":" + pad(m, 2)
  {
    ZoneMinutes(tm.gmtoff, h, m, s, west);
    SignedZone(if west && (h > 0 || m > 0) then "-" else "+", pad(h, 2), pad(m, 2));
  }

  lemma ZoneMinutes(offset: int, h: nat, m: nat, s: nat, west: bool)
    requires m < 60 && s < 60 && offset == if west then -(3600 * h + 60 * m + s) else 3600 * h + 60 * m + s
    ensures DivTruncated(offset, 60) == (if west then -(60 * h + m) else 60 * h + m)
    ensures (60 * h + m) / 60 == h && (60 * h + m) % 60 == m
  {
  }

  lemma SignedZone(sign: string, h: string, m: string)
    ensures sign + (h + [':'] + m) == sign + h + ":" + m
  {
  }

  /** Any other character behind a percent sign shows as it is written, the percent sign included ... */
  lemma OtherFlags(c: char, show: Formatter -> string)
    requires c !in {'n', 'l', 'L', 't', 'v', 'a', 'A', 'b', 'h', 'B', 'c', 'C', 'Y', 'D', 'x', 'm', 'd', 'H', 'I', 'M',
                    'S', 'e', 'f', 'F', 'E', 'p', 'r', 'R', 'T', 'X', 'z', '+', 'P', 'i'}
    ensures Interpret(['%', c], show) == ['%', c]
  {
    FlagAlone(c, show);
  }

  /** ... and a percent sign at the very end not at all. */
  lemma {:induction false} TrailingPercent(t: string, show: Formatter -> string)
    requires '%' !in t
    ensures Interpret(t + "%", show) == t
  {
    TextAhead(t, "%", show);
    assert t + "" == t;
  }
}
