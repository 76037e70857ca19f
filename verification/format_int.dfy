/** `FormatInt`, and `parse_nonnegative_int`, which reads such numerals back from format strings. */
module FormatIntegers {
  import opened Options
  import opened Arithmetic
  import opened Numerals
  import opened CountDigits
  import opened DecimalPrinter

  const TWO_TO_63: int := 0x8000_0000_0000_0000
  const INT_MAX: nat := 0x7fff_ffff
  const UINT_MAX: nat := 0xffff_ffff

  /** The numeral of a signed number. */
  function SignedDecimal(value: int): string {
    if value < 0 then "-" + Decimal(-value) else Decimal(value)
  }

  lemma AtMostTwentyDigits(n: nat)
    requires n < TWO_TO_64
    ensures |Decimal(n)| <= 20
  {
    var k := |Decimal(n)|;
    DigitCountBounds(n, 10);
    TableIsPowers(19);
    assert Pow(10, 20) == 10 * Pow(10, 19);
    if k > 20 {
      PowMonotone(10, 20, k - 1);
    }
  }

  /** The magnitude, taken in unsigned arithmetic so that the most negative number has one. */
  method AbsoluteValue(value: int) returns (a: nat)
    requires -TWO_TO_63 <= value < TWO_TO_63
    ensures a == if value < 0 then -value else value
  {
    a := value % TWO_TO_64;
    if value < 0 {
      assert a == value + TWO_TO_64;
      a := (0 - a) % TWO_TO_64;
    }
  }

  /** The decimal of an unsigned 64-bit number, ending in front of `end`. */
  method FormatPlain(buffer: array<char>, end: nat, value: nat) returns (start: nat)
    requires value < TWO_TO_64 && 20 <= end <= buffer.Length
    modifies buffer
    ensures start == end - |Decimal(value)| && |Decimal(value)| <= 20
    ensures forall i | 0 <= i < |Decimal(value)| :: buffer[start + i] == Decimal(value)[i]
  {
    AtMostTwentyDigits(value);
    RenderPlain(value);
    start := FormatDecimal(buffer, end, value, "");
    forall i | 0 <= i < |Decimal(value)| ensures buffer[start + i] == Decimal(value)[i] {
      assert buffer[start..end][i] == buffer[start + i];
    }
  }

  lemma SliceIs(buffer: array<char>, start: nat, end: nat, text: string)
    requires start + |text| == end <= buffer.Length
    requires forall i | 0 <= i < |text| :: buffer[start + i] == text[i]
    ensures buffer[start..end] == text
  {
  }

  /** The signed decimal of a 64-bit number, ending in front of `end`. */
  method FormatSigned(buffer: array<char>, end: nat, value: int) returns (start: nat)
    requires -TWO_TO_63 <= value < TWO_TO_63 && 21 <= end <= buffer.Length
    modifies buffer
    ensures start < end && buffer[start..end] == SignedDecimal(value)
  {
    var absValue := AbsoluteValue(value);
    start := FormatPlain(buffer, end, absValue);
    if value < 0 {
      start := start - 1;
      buffer[start] := '-';
    }
    SliceIs(buffer, start, end, SignedDecimal(value));
  }

  class FormatInt {
    /** `digits10 + 3` for a 64-bit number: its digits, a sign and a null character. */
    static const BUFFER_SIZE: nat := 22

    const buffer: array<char>
    var str: nat

    ghost predicate Valid()
      reads this, buffer
    {
      buffer.Length == BUFFER_SIZE && str < BUFFER_SIZE
    }

    function Text(): string
      reads this, buffer
      requires Valid()
    {
      buffer[str..BUFFER_SIZE - 1]
    }

    /** Prints a signed 64-bit number; the magnitude is taken in unsigned arithmetic. */
    constructor Signed(value: int)
      requires -TWO_TO_63 <= value < TWO_TO_63
      ensures Valid() && fresh(buffer)
      ensures Text() == SignedDecimal(value)
    {
      buffer := new char[BUFFER_SIZE];
      str := 0;
      new;
      str := FormatSigned(buffer, BUFFER_SIZE - 1, value);
    }

    constructor Unsigned(value: nat)
      requires value < TWO_TO_64
      ensures Valid() && fresh(buffer)
      ensures Text() == Decimal(value)
    {
      buffer := new char[BUFFER_SIZE];
      str := 0;
      new;
      str := FormatPlain(buffer, BUFFER_SIZE - 1, value);
    }

    method Size() returns (size: nat)
      requires Valid()
      ensures size == |Text()|
    {
      size := BUFFER_SIZE - 1 - str;
    }
  }

  // ---- reading numerals back -------------------------------------------------------------------

  datatype Parsed = Number(value: nat) | TooBig

  predicate IsDigit(c: char) {
    '0' <= c <= '9'
  }

  predicate AllDigits(s: string) {
    forall i | 0 <= i < |s| :: IsDigit(s[i])
  }

  function DigitOf(c: char): (d: nat)
    requires IsDigit(c)
    ensures d < 10
  {
    c as int - '0' as int
  }

  /** The digit run at the front of `s`. */
  function DigitRun(s: string): (n: nat)
    ensures n <= |s|
    ensures AllDigits(s[..n])
    ensures n < |s| ==> !IsDigit(s[n])
  {
    if s == "" || !IsDigit(s[0]) then 0
    else
      var n := 1 + DigitRun(s[1..]);
      assert s[..n] == [s[0]] + s[1..][..n - 1];
      n
  }

  function DigitValues(s: string): (ds: seq<nat>)
    requires AllDigits(s)
    ensures |ds| == |s| && forall i | 0 <= i < |s| :: ds[i] == DigitOf(s[i])
  {
    seq(|s|, i requires 0 <= i < |s| => DigitOf(s[i]))
  }

  /** The number a run of digits stands for. */
  function NumeralValue(s: string): nat
    requires AllDigits(s)
  {
    Value(DigitValues(s), 10)
  }

  /** One digit in 32-bit unsigned arithmetic. */
  function Shifted(value: nat, c: char): nat
    requires IsDigit(c)
  {
    (value * 10 + DigitOf(c)) % TWO_TO_32
  }

  /** What the loop has accumulated after a run of digits, or `None` once it has seen a wrap. */
  function Accumulate(s: string): (v: Option<nat>)
    requires AllDigits(s)
    ensures v.Some? ==> v.value <= UINT_MAX
  {
    if s == "" then Some(0)
    else
      var before := Accumulate(s[..|s| - 1]);
      if before.None? then None
      else
        var v := Shifted(before.value, s[|s| - 1]);
        if v < before.value then None else Some(v)
  }

  /** The verdict on a run of digits. */
  function Verdict(s: string): Parsed
    requires AllDigits(s)
  {
    var v := Accumulate(s);
    if v.Some? && v.value <= INT_MAX then Number(v.value) else TooBig
  }

  lemma {:induction false} WrapIsFinal(s: string, i: nat)
    requires i <= |s| && AllDigits(s) && Accumulate(s[..i]).None?
    ensures Accumulate(s).None?
    decreases |s|
  {
    if i < |s| {
      var init := s[..|s| - 1];
      assert init[..i] == s[..i];
      WrapIsFinal(init, i);
    } else {
      assert s[..i] == s;
    }
  }

  lemma AccumulateNext(s: string, n: nat, value: nat)
    requires n < |s| && AllDigits(s) && Accumulate(s[..n]) == Some(value)
    ensures var v := Shifted(value, s[n]); Accumulate(s[..n + 1]) == if v < value then None else Some(v)
  {
    assert s[..n + 1][..n] == s[..n];
  }

  /**
   * Reads digits from `start` on. On success `next` is behind the whole run; when the numeral is too
   * big the original throws and the position does not matter.
   */
  method ParseNonnegativeInt(s: string, start: nat) returns (r: Parsed, next: nat)
    requires start < |s| && IsDigit(s[start])
    ensures AllDigits(s[start..start + DigitRun(s[start..])])
    ensures r == Verdict(s[start..start + DigitRun(s[start..])])
    ensures r.Number? ==> next == start + DigitRun(s[start..])
  {
    ghost var run := s[start..start + DigitRun(s[start..])];
    assert run == s[start..][..DigitRun(s[start..])];
    var value := 0;
    next := start;
    while true
      invariant start <= next < start + |run| && value <= UINT_MAX
      invariant Accumulate(run[..next - start]) == Some(value)
      decreases |s| - next
    {
      assert run[next - start] == s[next];
      AccumulateNext(run, next - start, value);
      var newValue := (value * 10 + DigitOf(s[next])) % TWO_TO_32;
      next := next + 1;
      if newValue < value {
        value := UINT_MAX;
        WrapIsFinal(run, next - start);
        break;
      }
      value := newValue;
      if next == |s| || !IsDigit(s[next]) {
        assert run[..next - start] == run;
        break;
      }
      assert next - start < |run|;
    }
    if value > INT_MAX {
      return TooBig, next;
    }
    r := Number(value);
  }

  lemma {:induction false} ExactUpToUintMax(s: string)
    requires AllDigits(s) && NumeralValue(s) <= UINT_MAX
    ensures Accumulate(s) == Some(NumeralValue(s))
  {
    if s == "" {
      assert DigitValues(s) == [];
    } else {
      NumeralValueStep(s);
      ExactUpToUintMax(s[..|s| - 1]);
      SmallStaysExact(NumeralValue(s[..|s| - 1]), s[|s| - 1]);
    }
  }

  lemma SmallStaysExact(v: nat, c: char)
    requires IsDigit(c) && v * 10 + DigitOf(c) <= UINT_MAX
    ensures Shifted(v, c) == v * 10 + DigitOf(c) >= v
  {
  }

  lemma NumeralValueStep(s: string)
    requires s != "" && AllDigits(s)
    ensures NumeralValue(s) == NumeralValue(s[..|s| - 1]) * 10 + DigitOf(s[|s| - 1])
  {
    assert DigitValues(s)[..|s| - 1] == DigitValues(s[..|s| - 1]);
  }

  /** Leading zeros or not, a numeral up to UINT_MAX is read exactly and refused above INT_MAX. */
  lemma VerdictUpToUintMax(s: string)
    requires AllDigits(s) && NumeralValue(s) <= UINT_MAX
    ensures Verdict(s) == if NumeralValue(s) <= INT_MAX then Number(NumeralValue(s)) else TooBig
  {
    ExactUpToUintMax(s);
  }

  /** What 32-bit arithmetic keeps of a numeral. */
  function Remainder(s: string): (r: nat)
    requires AllDigits(s)
    ensures r < TWO_TO_32
  {
    NumeralValue(s) % TWO_TO_32
  }

  /** Reading the numeral digit by digit, the remainder never falls: the wrap test sees nothing. */
  ghost predicate NeverFalls(s: string)
    requires AllDigits(s)
  {
    forall k | 0 < k <= |s| :: Remainder(s[..k - 1]) <= Remainder(s[..k])
  }

  lemma RemainderStep(s: string)
    requires s != "" && AllDigits(s)
    ensures Remainder(s) == Shifted(Remainder(s[..|s| - 1]), s[|s| - 1])
  {
    var v, d := NumeralValue(s[..|s| - 1]), DigitOf(s[|s| - 1]);
    NumeralValueStep(s);
    TenfoldRemainder(v, d);
  }

  lemma TenfoldRemainder(v: nat, d: nat)
    ensures (v * 10 + d) % TWO_TO_32 == (v % TWO_TO_32 * 10 + d) % TWO_TO_32
  {
    var q, r := v / TWO_TO_32, v % TWO_TO_32;
    var w := r * 10 + d;
    assert v * 10 + d == (10 * q + w / TWO_TO_32) * TWO_TO_32 + w % TWO_TO_32;
    QuotientUnique(v * 10 + d, TWO_TO_32, 10 * q + w / TWO_TO_32, w % TWO_TO_32);
  }

  lemma NeverFallsStep(s: string)
    requires s != "" && AllDigits(s)
    ensures NeverFalls(s) <==> NeverFalls(s[..|s| - 1]) && Remainder(s[..|s| - 1]) <= Remainder(s)
  {
    var init := s[..|s| - 1];
    assert s[..|s|] == s;
    assert forall k | 0 <= k <= |init| :: init[..k] == s[..k];
  }

  /** The loop's outcome in terms of the number alone. */
  lemma {:induction false} AccumulateIs(s: string)
    requires AllDigits(s)
    ensures Accumulate(s) == if NeverFalls(s) then Some(Remainder(s)) else None
  {
    if s == "" {
      assert DigitValues(s) == [];
    } else {
      AccumulateIs(s[..|s| - 1]);
      RemainderStep(s);
      NeverFallsStep(s);
    }
  }

  /**
   * Exactly when a numeral is read, and as what: when its remainder modulo 2^32 never falls from one
   * digit to the next and ends within INT_MAX, it is read as that remainder.
   */
  lemma VerdictIff(s: string)
    requires AllDigits(s)
    ensures Verdict(s) == if NeverFalls(s) && Remainder(s) <= INT_MAX then Number(Remainder(s)) else TooBig
  {
    AccumulateIs(s);
  }

  /** So a numeral above INT_MAX is refused, as it should be, under exactly this condition. */
  lemma BigNumeralRefusedIff(s: string)
    requires AllDigits(s) && NumeralValue(s) > INT_MAX
    ensures Verdict(s) == TooBig <==> !NeverFalls(s) || Remainder(s) > INT_MAX
  {
    VerdictIff(s);
  }

  lemma DecimalIsDigits(n: nat)
    ensures AllDigits(Decimal(n))
    ensures DigitValues(Decimal(n)) == Digits(n, 10)
    ensures NumeralValue(Decimal(n)) == n
  {
    forall i | 0 <= i < |Decimal(n)| ensures IsDigit(Decimal(n)[i]) && DigitOf(Decimal(n)[i]) == Digits(n, 10)[i] {
      assert Decimal(n)[i] == DigitChar(Digits(n, 10)[i], false);
    }
    assert DigitValues(Decimal(n)) == Digits(n, 10);
    ValueOfDigits(n, 10);
  }

  /** The parser inverts the printer for every int and refuses the printed form of every larger unsigned. */
  lemma ParseInvertsPrint(n: nat)
    requires n <= UINT_MAX
    ensures AllDigits(Decimal(n))
    ensures Verdict(Decimal(n)) == if n <= INT_MAX then Number(n) else TooBig
  {
    DecimalIsDigits(n);
    VerdictUpToUintMax(Decimal(n));
  }

  /** Five thousand million is accepted, as 705032704. */
  lemma FiveThousandMillionAccepted()
    ensures AllDigits("5000000000")
    ensures Verdict("5000000000") == Number(705032704)
    ensures NumeralValue("5000000000") == 5000000000
  {
    var s, t := "500000000", "5000000000";
    FiveHundredMillion();
    assert t[..9] == s && t[9] == '0';
    NumeralValueStep(t);
    ExactUpToUintMax(s);
  }

  lemma FiveHundredMillion()
    ensures AllDigits("500000000") && NumeralValue("500000000") == 500000000
  {
    assert DigitValues("5") == [5] && [5][..0] == [];
    MoreZeros("5", 5, "50");
    MoreZeros("50", 50, "500");
    MoreZeros("500", 500, "5000");
    MoreZeros("5000", 5000, "50000");
    MoreZeros("50000", 50000, "500000");
    MoreZeros("500000", 500000, "5000000");
    MoreZeros("5000000", 5000000, "50000000");
    MoreZeros("50000000", 50000000, "500000000");
  }

  lemma MoreZeros(s: string, v: nat, t: string)
    requires AllDigits(s) && NumeralValue(s) == v && t == s + "0"
    ensures AllDigits(t) && NumeralValue(t) == 10 * v
  {
    assert t[..|t| - 1] == s;
    NumeralValueStep(t);
  }
}
