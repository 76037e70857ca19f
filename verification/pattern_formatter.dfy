/** The log pattern: compiled once into a list of formatters, then run on every message. */
module Patterns {
  import opened Options
  import opened Numerals
  import opened CountDigits
  import opened FormatIntegers
  import opened WriteIntegers

  /** The fields of `std::tm` that patterns show, and the offset from UTC in seconds. */
  datatype Tm = Tm(sec: int, min: int, hour: int, mday: int, mon: nat, year: int, wday: nat, gmtoff: int)

  /** A log message; `nanos` is its time since the epoch. */
  datatype LogMsg = LogMsg(loggerName: string, level: nat, nanos: int, threadId: nat, msgId: nat, raw: string)

  datatype Env = Env(msg: LogMsg, tm: Tm, pid: int)

  /** What the formatters share: zero padding to a width, and the tables of names. */
  datatype Style = Style(
    pad: (int, nat) -> string,
    days: seq<string>, fullDays: seq<string>, months: seq<string>, fullMonths: seq<string>,
    levels: seq<string>, shortLevels: seq<string>)

  /** Month, weekday and level index the tables. */
  predicate Sensible(e: Env, style: Style) {
    && e.tm.mon < |style.months| && e.tm.mon < |style.fullMonths|
    && e.tm.wday < |style.days| && e.tm.wday < |style.fullDays|
    && e.msg.level < |style.levels| && e.msg.level < |style.shortLevels|
  }

  datatype Formatter =
    | Name | Level | ShortLevel | ThreadNumber | Payload
    | AbbrevDay | FullDay | AbbrevMonth | FullMonth | DateAndTime
    | ShortYear | FullYear | ShortDate | Month | MonthDay
    | Hour24 | Hour12 | Minute | Second
    | Millis | Micros | Nanos | EpochSeconds
    | AmPmMark | Clock12 | HourMinute | Clock24 | Zone
    | Full | ProcessId | Counter
    | Single(c: char)
    | Aggregate(text: string)

  const EOL := "\n"

  /** Division and remainder as the original's language has them: towards zero. */
  function DivTruncated(a: int, b: nat): int
    requires b > 0
  {
    if a >= 0 then a / b else -((-a) / b)
  }

  function ModTruncated(a: int, b: nat): int
    requires b > 0
  {
    if a >= 0 then a % b else -((-a) % b)
  }

  /** `fmt::pad(v, width, '0')` streamed out. */
  function Pad(v: int, width: nat): string {
    IntText(v, Spec(width, '0', AlignDefault, -1, false, false, false, false, '\0'), "")
  }

  /** The style of the library. */
  function Standard(): (style: Style)
    ensures |style.days| == |style.fullDays| == 7 && |style.months| == |style.fullMonths| == 12
    ensures |style.levels| == |style.shortLevels| == 7
    ensures style.pad == Pad
  {
    Style(
      Pad,
      ["Sun", "Mon", "Tue", "Wed", "Thu", "Fri", "Sat"],
      ["Sunday", "Monday", "Tuesday", "Wednesday", "Thursday", "Friday", "Saturday"],
      ["Jan", "Feb", "Mar", "Apr", "May", "Jun", "Jul", "Aug", "Sept", "Oct", "Nov", "Dec"],
      ["January", "February", "March", "April", "May", "June", "July",
       "August", "September", "October", "November", "December"],
      ["trace", "debug", "info", "warning", "error", "critical", "off"],
      ["T", "D", "I", "W", "E", "C", "O"])
  }

  /** A number cast to unsigned before it is padded. */
  function Unsigned(v: int): nat {
    v % TWO_TO_32
  }

  function Join2(a: int, b: int, sep: char, pad: (int, nat) -> string): string {
    pad(a, 2) + [sep] + pad(b, 2)
  }

  function Join3(a: int, b: int, c: int, sep: char, pad: (int, nat) -> string): string {
    pad(a, 2) + [sep] + pad(b, 2) + [sep] + pad(c, 2)
  }

  function AmPm(tm: Tm): string {
    if tm.hour >= 12 then "PM" else "AM"
  }

  function To12h(tm: Tm): int {
    if tm.hour > 12 then tm.hour - 12 else tm.hour
  }

  function MillisOf(e: Env): int {
    ModTruncated(DivTruncated(e.msg.nanos, 1000000), 1000)
  }

  function ZoneText(tm: Tm, pad: (int, nat) -> string): string {
    var minutes := DivTruncated(tm.gmtoff, 60);
    var sign := if minutes < 0 then '-' else '+';
    var total := if minutes < 0 then -minutes else minutes;
    [sign] + Join2(total / 60, total % 60, ':', pad)
  }

  /** The layout of the full format's date, the numbers after the year padded by `pad`. */
  function DateText(year: int, month: int, day: int, hour: int, min: int, sec: int, ms: int,
                    pad: (int, nat) -> string): string
  {
    "[" + SignedDecimal(year) + "-" + pad(month, 2) + "-" + pad(day, 2)
    + " " + pad(hour, 2) + ":" + pad(min, 2) + ":" + pad(sec, 2) + "." + pad(ms, 3)
  }

  /** The full formatter casts every number of the date to unsigned. */
  function FullDate(e: Env, pad: (int, nat) -> string): string {
    DateText(Unsigned(e.tm.year + 1900), Unsigned(e.tm.mon + 1), Unsigned(e.tm.mday),
             Unsigned(e.tm.hour), Unsigned(e.tm.min), Unsigned(e.tm.sec), Unsigned(MillisOf(e)), pad)
  }

  /** What a formatter appends to the formatted message. */
  function Emit(f: Formatter, e: Env, style: Style): string
    requires Sensible(e, style)
  {
    var pad := style.pad;
    match f
    case Name => e.msg.loggerName
    case Level => style.levels[e.msg.level]
    case ShortLevel => style.shortLevels[e.msg.level]
    case ThreadNumber => Decimal(e.msg.threadId)
    case Payload => e.msg.raw
    case AbbrevDay => style.days[e.tm.wday]
    case FullDay => style.fullDays[e.tm.wday]
    case AbbrevMonth => style.months[e.tm.mon]
    case FullMonth => style.fullMonths[e.tm.mon]
    case DateAndTime =>
      style.days[e.tm.wday] + " " + style.months[e.tm.mon] + " " + SignedDecimal(e.tm.mday) + " "
      + Join3(e.tm.hour, e.tm.min, e.tm.sec, ':', pad) + " " + SignedDecimal(e.tm.year + 1900)
    case ShortYear => pad(ModTruncated(e.tm.year, 100), 2)
    case FullYear => SignedDecimal(e.tm.year + 1900)
    case ShortDate => Join3(e.tm.mon + 1, e.tm.mday, ModTruncated(e.tm.year, 100), '/', pad)
    case Month => pad(e.tm.mon + 1, 2)
    case MonthDay => pad(e.tm.mday, 2)
    case Hour24 => pad(e.tm.hour, 2)
    case Hour12 => pad(To12h(e.tm), 2)
    case Minute => pad(e.tm.min, 2)
    case Second => pad(e.tm.sec, 2)
    case Millis => pad(MillisOf(e), 3)
    case Micros => pad(ModTruncated(DivTruncated(e.msg.nanos, 1000), 1000000), 6)
    case Nanos => pad(ModTruncated(e.msg.nanos, 1000000000), 9)
    case EpochSeconds => SignedDecimal(DivTruncated(e.msg.nanos, 1000000000))
    case AmPmMark => AmPm(e.tm)
    case Clock12 => Join3(To12h(e.tm), e.tm.min, e.tm.sec, ':', pad) + " " + AmPm(e.tm)
    case HourMinute => Join2(e.tm.hour, e.tm.min, ':', pad)
    case Clock24 => Join3(e.tm.hour, e.tm.min, e.tm.sec, ':', pad)
    case Zone => ZoneText(e.tm, pad)
    case Full =>
      FullDate(e, pad) + "] " + "[" + e.msg.loggerName + "] " + "[" + style.levels[e.msg.level] + "] " + e.msg.raw
    case ProcessId => SignedDecimal(e.pid)
    case Counter => pad(e.msg.msgId, 6)
    case Single(c) => [c]
    case Aggregate(text) => text
  }

  /** The formatter a flag stands for. */
  function Known(flag: char): Option<Formatter> {
    match flag
    case 'n' => Some(Name)
    case 'l' => Some(Level)
    case 'L' => Some(ShortLevel)
    case 't' => Some(ThreadNumber)
    case 'v' => Some(Payload)
    case 'a' => Some(AbbrevDay)
    case 'A' => Some(FullDay)
    case 'b' => Some(AbbrevMonth)
    case 'h' => Some(AbbrevMonth)
    case 'B' => Some(FullMonth)
    case 'c' => Some(DateAndTime)
    case 'C' => Some(ShortYear)
    case 'Y' => Some(FullYear)
    case 'D' => Some(ShortDate)
    case 'x' => Some(ShortDate)
    case 'm' => Some(Month)
    case 'd' => Some(MonthDay)
    case 'H' => Some(Hour24)
    case 'I' => Some(Hour12)
    case 'M' => Some(Minute)
    case 'S' => Some(Second)
    case 'e' => Some(Millis)
    case 'f' => Some(Micros)
    case 'F' => Some(Nanos)
    case 'E' => Some(EpochSeconds)
    case 'p' => Some(AmPmMark)
    case 'r' => Some(Clock12)
    case 'R' => Some(HourMinute)
    case 'T' => Some(Clock24)
    case 'X' => Some(Clock24)
    case 'z' => Some(Zone)
    case '+' => Some(Full)
    case 'P' => Some(ProcessId)
    case 'i' => Some(Counter)
    case _ => None
  }

  function FlagFormatters(flag: char): seq<Formatter> {
    if Known(flag).Some? then [Known(flag).value] else [Single('%'), Single(flag)]
  }

  // ---- reading a pattern directly ----------------------------------------------------------------

  /** Compiling is independent of what the flags show, as long as literal text shows as it is. */
  ghost predicate ShowsLiterals(show: Formatter -> string) {
    && (forall c :: show(Single(c)) == [c])
    && (forall text :: show(Aggregate(text)) == text)
  }

  function Showing(e: Env, style: Style): (show: Formatter -> string)
    requires Sensible(e, style)
    ensures ShowsLiterals(show) && forall f :: show(f) == Emit(f, e, style)
  {
    f => Emit(f, e, style)
  }

  /** A flag's text; an unknown flag appears as it is written. */
  function FlagText(flag: char, show: Formatter -> string): string {
    if Known(flag).Some? then show(Known(flag).value) else ['%', flag]
  }

  /** The pattern read one character at a time; a trailing `%` shows nothing. */
  function Interpret(p: string, show: Formatter -> string): string
    decreases |p|
  {
    if p == "" then ""
    else if p[0] != '%' then [p[0]] + Interpret(p[1..], show)
    else if |p| == 1 then ""
    else FlagText(p[1], show) + Interpret(p[2..], show)
  }

  // ---- compiling it ------------------------------------------------------------------------------

  function EmitAll(fs: seq<Formatter>, show: Formatter -> string): string {
    if fs == [] then "" else EmitAll(fs[..|fs| - 1], show) + show(fs[|fs| - 1])
  }

  /** Characters collected since the last flag, if any. */
  function Pending(run: Option<string>): seq<Formatter> {
    if run.Some? then [Aggregate(run.value)] else []
  }

  function Extended(run: Option<string>, c: char): string {
    if run.Some? then run.value + [c] else [c]
  }

  /** The formatters a pattern compiles to, given the literal run in progress. */
  function Compile(p: string, run: Option<string>): seq<Formatter>
    decreases |p|
  {
    if p == "" then Pending(run)
    else if p[0] != '%' then Compile(p[1..], Some(Extended(run, p[0])))
    else if |p| == 1 then Pending(run)
    else Pending(run) + FlagFormatters(p[1]) + Compile(p[2..], None)
  }

  class PatternFormatter {
    var formatters: seq<Formatter>
    ghost const pattern: string

    ghost predicate Valid()
      reads this
    {
      formatters == Compile(pattern, None)
    }

    constructor (pattern: string)
      ensures this.pattern == pattern && Valid()
    {
      formatters := [];
      this.pattern := pattern;
      new;
      CompilePattern(pattern);
    }

    method HandleFlag(flag: char)
      modifies this
      ensures formatters == old(formatters) + FlagFormatters(flag)
    {
      var known := Known(flag);
      if known.Some? {
        formatters := formatters + [known.value];
      } else {
        formatters := formatters + [Single('%')];
        formatters := formatters + [Single(flag)];
      }
    }

    method CompilePattern(pattern: string)
      modifies this
      ensures formatters == old(formatters) + Compile(pattern, None)
    {
      var userChars: Option<string> := None;
      var it := 0;
      while it != |pattern|
        invariant 0 <= it <= |pattern|
        invariant formatters + Compile(pattern[it..], userChars) == old(formatters) + Compile(pattern, None)
        decreases |pattern| - it
      {
        ghost var rest := pattern[it..];
        if pattern[it] == '%' {
          if userChars.Some? {
            formatters := formatters + [Aggregate(userChars.value)];
          }
          userChars := None;
          it := it + 1;
          if it == |pattern| {
            break;
          }
          assert rest[2..] == pattern[it + 1..];
          HandleFlag(pattern[it]);
        } else {
          assert rest[1..] == pattern[it + 1..];
          userChars := Some(Extended(userChars, pattern[it]));
        }
        it := it + 1;
      }
      if userChars.Some? {
        formatters := formatters + [Aggregate(userChars.value)];
      }
    }

    /** Runs the formatters one after another and ends the line: what comes out is the pattern as read. */
    method Format(e: Env) returns (text: string)
      requires Valid() && Sensible(e, Standard())
      ensures text == Interpret(pattern, Showing(e, Standard())) + "\n"
    {
      var show := Showing(e, Standard());
      text := "";
      for i := 0 to |formatters|
        invariant text == EmitAll(formatters[..i], show)
      {
        assert formatters[..i + 1][..i] == formatters[..i];
        text := text + show(formatters[i]);
      }
      assert formatters[..|formatters|] == formatters;
      FormattersMeanPattern(pattern, show);
      text := text + EOL;
    }
  }

  lemma FormattersMeanPattern(p: string, show: Formatter -> string)
    requires ShowsLiterals(show)
    ensures EmitAll(Compile(p, None), show) == Interpret(p, show)
  {
    CompileMeansInterpret(p, None, show);
    assert Literal(None) + Interpret(p, show) == Interpret(p, show);
  }

  lemma {:induction false} EmitAppend(a: seq<Formatter>, b: seq<Formatter>, show: Formatter -> string)
    ensures EmitAll(a + b, show) == EmitAll(a, show) + EmitAll(b, show)
  {
    if b == [] {
      assert a + b == a;
      assert EmitAll(a, show) + "" == EmitAll(a, show);
    } else {
      EmitAppend(a, b[..|b| - 1], show);
      assert (a + b)[..|a + b| - 1] == a + b[..|b| - 1];
    }
  }

  lemma EmitPending(run: Option<string>, show: Formatter -> string)
    requires ShowsLiterals(show)
    ensures EmitAll(Pending(run), show) == Literal(run)
  {
    if run.Some? {
      assert [Aggregate(run.value)][..0] == [];
    }
  }

  lemma EmitFlag(flag: char, show: Formatter -> string)
    requires ShowsLiterals(show)
    ensures EmitAll(FlagFormatters(flag), show) == FlagText(flag, show)
  {
    var fs := FlagFormatters(flag);
    if Known(flag).Some? {
      assert fs[..0] == [];
    } else {
      assert fs[..1] == [Single('%')] && [Single('%')][..0] == [];
      assert EmitAll([Single('%')], show) == "%";
    }
  }

  function Literal(run: Option<string>): string {
    if run.Some? then run.value else ""
  }

  lemma CompileStep(before: seq<Formatter>, flag: char, rest: seq<Formatter>, show: Formatter -> string)
    requires ShowsLiterals(show)
    ensures EmitAll(before + FlagFormatters(flag) + rest, show) == EmitAll(before, show) + FlagText(flag, show) + EmitAll(rest, show)
  {
    EmitFlag(flag, show);
    EmitAppend(before + FlagFormatters(flag), rest, show);
    EmitAppend(before, FlagFormatters(flag), show);
  }

  lemma LiteralStep(p: string, run: Option<string>, show: Formatter -> string)
    requires ShowsLiterals(show) && p != "" && p[0] != '%'
    requires EmitAll(Compile(p[1..], Some(Extended(run, p[0]))), show) == Extended(run, p[0]) + Interpret(p[1..], show)
    ensures EmitAll(Compile(p, run), show) == Literal(run) + Interpret(p, show)
  {
    Regroup(Literal(run), [p[0]], Interpret(p[1..], show));
  }

  lemma Regroup(a: string, b: string, c: string)
    ensures (a + b) + c == a + (b + c)
  {
  }

  lemma FlagStep(p: string, run: Option<string>, show: Formatter -> string)
    requires ShowsLiterals(show) && |p| >= 2 && p[0] == '%'
    requires EmitAll(Compile(p[2..], None), show) == Interpret(p[2..], show)
    ensures EmitAll(Compile(p, run), show) == Literal(run) + Interpret(p, show)
  {
    EmitPending(run, show);
    CompileStep(Pending(run), p[1], Compile(p[2..], None), show);
    Regroup(Literal(run), FlagText(p[1], show), Interpret(p[2..], show));
  }

  /** Running the compiled pattern is reading the pattern. */
  lemma {:induction false} CompileMeansInterpret(p: string, run: Option<string>, show: Formatter -> string)
    requires ShowsLiterals(show)
    ensures EmitAll(Compile(p, run), show) == Literal(run) + Interpret(p, show)
    decreases |p|
  {
    if p == "" || (p[0] == '%' && |p| == 1) {
      EmitPending(run, show);
      assert Literal(run) + "" == Literal(run);
    } else if p[0] != '%' {
      CompileMeansInterpret(p[1..], Some(Extended(run, p[0])), show);
      LiteralStep(p, run, show);
    } else {
      CompileMeansInterpret(p[2..], None, show);
      assert Literal(None) + Interpret(p[2..], show) == Interpret(p[2..], show);
      FlagStep(p, run, show);
    }
  }

  /** Literal text is grouped: no aggregate is empty and no two stand side by side. */
  ghost predicate Grouped(fs: seq<Formatter>) {
    && (forall i | 0 <= i < |fs| :: fs[i].Aggregate? ==> fs[i].text != "")
    && (forall i | 0 <= i < |fs| - 1 :: !(fs[i].Aggregate? && fs[i + 1].Aggregate?))
  }

  lemma FlagGroups(run: Option<string>, flag: char)
    requires run.Some? ==> run.value != ""
    ensures var head := Pending(run) + FlagFormatters(flag);
      head != [] && Grouped(head) && !head[|head| - 1].Aggregate?
  {
  }

  lemma GroupsJoin(a: seq<Formatter>, b: seq<Formatter>)
    requires Grouped(a) && Grouped(b) && a != [] && !a[|a| - 1].Aggregate?
    ensures Grouped(a + b)
  {
  }

  lemma {:induction false} CompileGroups(p: string, run: Option<string>)
    requires run.Some? ==> run.value != ""
    ensures Grouped(Compile(p, run))
    decreases |p|
  {
    if p == "" || (p[0] == '%' && |p| == 1) {
    } else if p[0] != '%' {
      CompileGroups(p[1..], Some(Extended(run, p[0])));
    } else {
      CompileGroups(p[2..], None);
      FlagGroups(run, p[1]);
      GroupsJoin(Pending(run) + FlagFormatters(p[1]), Compile(p[2..], None));
    }
  }
}
