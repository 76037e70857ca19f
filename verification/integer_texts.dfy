/** What an integer field looks like: its digits, its sign and prefix, and where the fill goes. */
module IntegerTexts {
  import opened Numerals
  import opened DecimalPrinter
  import opened WriteIntegers

  // ---- digits, read as anybody reads them ----------------------------------------------------------

  /** The value of a character as a digit, or -1. */
  function DigitValue(c: char, upper: bool): int {
    if '0' <= c <= '9' then c as int - '0' as int
    else if !upper && 'a' <= c <= 'f' then c as int - 'a' as int + 10
    else if upper && 'A' <= c <= 'F' then c as int - 'A' as int + 10
    else -1
  }

  predicate DigitsOf(t: string, base: nat, upper: bool) {
    forall i | 0 <= i < |t| :: 0 <= DigitValue(t[i], upper) < base
  }

  function ReadIn(t: string, base: nat, upper: bool): (n: nat)
    requires DigitsOf(t, base, upper)
  {
    if t == "" then 0 else ReadIn(t[..|t| - 1], base, upper) * base + DigitValue(t[|t| - 1], upper)
  }

  /** The text is `n` written out in a base, without leading zeros. */
  ghost predicate Writes(t: string, n: nat, base: nat, upper: bool) {
    t != "" && (t[0] == '0' ==> t == "0") && DigitsOf(t, base, upper) && ReadIn(t, base, upper) == n
  }

  lemma DigitReads(d: nat, upper: bool)
    requires d < 16
    ensures DigitValue(DigitChar(d, upper), upper) == d
    ensures DigitChar(d, upper) == '0' <==> d == 0
  {
  }

  lemma {:induction false} TextReads(ds: seq<nat>, base: nat, upper: bool)
    requires base <= 16 && forall i | 0 <= i < |ds| :: ds[i] < base
    ensures DigitsOf(Text(ds, upper), base, upper) && ReadIn(Text(ds, upper), base, upper) == Value(ds, base)
  {
    var t := Text(ds, upper);
    forall i | 0 <= i < |t| ensures 0 <= DigitValue(t[i], upper) < base {
      DigitReads(ds[i], upper);
    }
    if ds != [] {
      var init := ds[..|ds| - 1];
      TextReads(init, base, upper);
      assert t[..|t| - 1] == Text(init, upper);
      DigitReads(ds[|ds| - 1], upper);
    }
  }

  lemma NumeralWrites(n: nat, base: nat, upper: bool)
    requires 2 <= base <= 16
    ensures Writes(Numeral(n, base, upper), n, base, upper)
  {
    var ds := Digits(n, base);
    TextReads(ds, base, upper);
    ValueOfDigits(n, base);
    DigitsMinimal(n, base);
    DigitReads(ds[0], upper);
    if |ds| == 1 && ds[0] == 0 {
      assert Text(ds, upper) == "0";
    }
  }

  lemma WritesOnce(t: string, base: nat, upper: bool) returns (ds: seq<nat>)
    requires 2 <= base <= 16 && DigitsOf(t, base, upper)
    ensures |ds| == |t| && forall i | 0 <= i < |ds| :: ds[i] == DigitValue(t[i], upper) < base
    ensures t == Text(ds, upper)
  {
    ds := seq(|t|, i requires 0 <= i < |t| && DigitsOf(t, base, upper) => DigitValue(t[i], upper));
    assert forall i | 0 <= i < |ds| :: ds[i] < base;
    forall i | 0 <= i < |t| ensures t[i] == DigitChar(ds[i], upper) {
      assert 0 <= DigitValue(t[i], upper) < base;
    }
  }

  /** There is one such text. */
  lemma WritesIff(t: string, n: nat, base: nat, upper: bool)
    requires 2 <= base <= 16
    ensures Writes(t, n, base, upper) <==> t == Numeral(n, base, upper)
  {
    NumeralWrites(n, base, upper);
    if Writes(t, n, base, upper) {
      var ds := WritesOnce(t, base, upper);
      TextReads(ds, base, upper);
      DigitsUnique(ds, base);
    }
  }

  /** Which base a type letter writes in, and in which case. */
  lemma DigitsByType(n: nat, sep: string)
    ensures Writes(DigitText(n, '\0', sep), n, 10, false) && Writes(DigitText(n, 'd', sep), n, 10, false)
    ensures Writes(DigitText(n, 'x', sep), n, 16, false) && Writes(DigitText(n, 'X', sep), n, 16, true)
    ensures Writes(DigitText(n, 'o', sep), n, 8, false)
    ensures Writes(DigitText(n, 'b', sep), n, 2, false) && Writes(DigitText(n, 'B', sep), n, 2, false)
    ensures DigitText(n, 'n', sep) == Join(Groups(Decimal(n)), sep) && Writes(Decimal(n), n, 10, false)
  {
    TypeWrites(n, '\0', sep, 10, false);
    TypeWrites(n, 'd', sep, 10, false);
    TypeWrites(n, 'x', sep, 16, false);
    TypeWrites(n, 'X', sep, 16, true);
    TypeWrites(n, 'o', sep, 8, false);
    TypeWrites(n, 'b', sep, 2, false);
    TypeWrites(n, 'B', sep, 2, false);
    DecimalWrites(n);
    RenderMeaning(n, sep);
  }

  lemma TypeWrites(n: nat, kind: char, sep: string, base: nat, upper: bool)
    requires kind != 'n' && BaseOf(kind) == base && upper == (kind == 'X')
    ensures Writes(DigitText(n, kind, sep), n, base, upper)
  {
    NumeralWrites(n, base, upper);
  }

  lemma DecimalWrites(n: nat)
    ensures Writes(Decimal(n), n, 10, false)
  {
    NumeralWrites(n, 10, false);
  }

  /** Those are the types there are. */
  lemma KnownTypes(kind: char)
    ensures KnownKind(kind) <==>
      kind == '\0' || kind == 'd' || kind == 'n' || kind == 'x' || kind == 'X' || kind == 'o' || kind == 'b' || kind == 'B'
  {
  }

  // ---- what stands in front ------------------------------------------------------------------------

  /** A minus for negative numbers; a plus or a blank for the others if asked for. */
  lemma SignIs(n: int, spec: Spec)
    ensures n < 0 ==> SignPrefix(n, spec) == "-"
    ensures n >= 0 && spec.sign && spec.plus ==> SignPrefix(n, spec) == "+"
    ensures n >= 0 && spec.sign && !spec.plus ==> SignPrefix(n, spec) == " "
    ensures n >= 0 && !spec.sign ==> SignPrefix(n, spec) == ""
  {
  }

  /** The alternate form names the base, decimal and grouped numbers having none. */
  lemma BaseIs(spec: Spec)
    ensures !spec.hash || spec.kind in {'\0', 'd', 'n'} ==> BasePrefix(spec) == ""
    ensures spec.hash && spec.kind == 'x' ==> BasePrefix(spec) == "0x"
    ensures spec.hash && spec.kind == 'X' ==> BasePrefix(spec) == "0X"
    ensures spec.hash && spec.kind == 'b' ==> BasePrefix(spec) == "0b"
    ensures spec.hash && spec.kind == 'B' ==> BasePrefix(spec) == "0B"
    ensures spec.hash && spec.kind == 'o' ==> BasePrefix(spec) == "0"
  {
  }

  // ---- the field -----------------------------------------------------------------------------------

  /** `n` copies of a character. */
  ghost predicate AllOf(t: string, c: char, n: int) {
    |t| == n && forall i | 0 <= i < |t| :: t[i] == c
  }

  /** A field of sign and prefix `p`, digits `q` and fill: which fill goes where. */
  ghost predicate LaidOut(t: string, p: string, q: string, width: nat, fill: char, align: Alignment) {
    if |p| + |q| >= width then t == p + q
    else if align == AlignLeft then exists a :: AllOf(a, fill, width - |p| - |q|) && t == p + q + a
    else if align == AlignNumeric then exists a :: AllOf(a, fill, width - |p| - |q|) && t == p + a + q
    else if align == AlignCenter then
      exists a, b :: |a| + |b| == width - |p| - |q| && |a| <= |b| <= |a| + 1 && AllOf(a, fill, |a|) && AllOf(b, fill, |b|)
                     && t == a + (p + q) + b
    else exists a :: AllOf(a, fill, width - |p| - |q|) && t == a + (p + q)
  }

  lemma LeftLaid(p: string, q: string, width: nat, fill: char, a: string)
    requires |p| + |q| < width && AllOf(a, fill, width - |p| - |q|)
    ensures LaidOut(p + q + a, p, q, width, fill, AlignLeft)
    ensures LaidOut(p + a + q, p, q, width, fill, AlignNumeric)
    ensures LaidOut(a + (p + q), p, q, width, fill, AlignRight) && LaidOut(a + (p + q), p, q, width, fill, AlignDefault)
  {
  }

  lemma CentreLaid(p: string, q: string, width: nat, fill: char, a: string, b: string)
    requires |p| + |q| + |a| + |b| == width && |a| <= |b| <= |a| + 1 && |b| > 0
    requires AllOf(a, fill, |a|) && AllOf(b, fill, |b|)
    ensures LaidOut(a + (p + q) + b, p, q, width, fill, AlignCenter)
  {
  }

  lemma Regrouped(a: string, b: string, c: string)
    ensures (a + b) + c == a + (b + c) && a + b + "" == a + b
  {
  }

  lemma PlainLaid(p: string, q: string, width: nat, fill: char, align: Alignment)
    ensures var f := PlainFrame(|q|, width, fill, align, p);
      LaidOut(f.left + q + f.right, p, q, width, fill, align)
  {
    var pad := width - |p| - |q|;
    Regrouped(p, q, "");
    if pad > 0 {
      var a := Repeat(fill, pad);
      match align
      case AlignLeft => LeftLaid(p, q, width, fill, a);
      case AlignNumeric =>
        Regrouped(p + a, q, "");
        LeftLaid(p, q, width, fill, a);
      case AlignCenter =>
        var l, r := Repeat(fill, pad / 2), Repeat(fill, pad - pad / 2);
        Regrouped(l, p, q);
        CentreLaid(p, q, width, fill, l, r);
      case _ =>
        Regrouped(a, p, q);
        Regrouped(a + p, q, "");
        LeftLaid(p, q, width, fill, a);
    }
  }

  /**
   * The text of an integer without a precision that adds zeros: sign, base prefix and digits, the fill
   * where the alignment says.
   */
  lemma IntegerLaidOut(n: int, spec: Spec, sep: string)
    requires spec.precision <= |DigitText(Magnitude(n), spec.kind, sep)|
    ensures LaidOut(IntText(n, spec, sep), SignPrefix(n, spec) + BasePrefix(spec),
                    DigitText(Magnitude(n), spec.kind, sep), spec.width, spec.fill, spec.align)
  {
    PlainLaid(SignPrefix(n, spec) + BasePrefix(spec), DigitText(Magnitude(n), spec.kind, sep), spec.width, spec.fill,
              spec.align);
  }

  /** A precision puts zeros in front of the digits; the zero of an octal prefix makes room for them. */
  lemma PreciseLaidOut(n: int, spec: Spec, sep: string)
    requires spec.precision > |DigitText(Magnitude(n), spec.kind, sep)|
    ensures var digits := DigitText(Magnitude(n), spec.kind, sep);
      var prefix := if spec.hash && spec.kind == 'o' then SignPrefix(n, spec) else SignPrefix(n, spec) + BasePrefix(spec);
      exists zeros :: AllOf(zeros, '0', spec.precision - |digits|)
        && LaidOut(IntText(n, spec, sep), prefix, zeros + digits, spec.width, spec.fill,
                   if spec.align == AlignLeft then AlignLeft else AlignRight)
  {
    var digits := DigitText(Magnitude(n), spec.kind, sep);
    var prefix := if spec.hash && spec.kind == 'o' then SignPrefix(n, spec) else SignPrefix(n, spec) + BasePrefix(spec);
    var zeros := Repeat('0', spec.precision - |digits|);
    PrefixShortened(n, spec);
    PreciseText(n, spec, sep, prefix, zeros, digits);
    if |prefix| + spec.precision < spec.width {
      LeftLaid(prefix, zeros + digits, spec.width, spec.fill, Repeat(spec.fill, spec.width - |prefix| - spec.precision));
    }
  }

  lemma PrefixShortened(n: int, spec: Spec)
    ensures PrefixWithPrecision(SignPrefix(n, spec) + BasePrefix(spec))
         == if spec.hash && spec.kind == 'o' then SignPrefix(n, spec) else SignPrefix(n, spec) + BasePrefix(spec)
  {
    var sign := SignPrefix(n, spec);
    if spec.hash && spec.kind == 'o' {
      assert (sign + "0")[..|sign|] == sign;
    }
  }

  lemma PreciseText(n: int, spec: Spec, sep: string, prefix: string, zeros: string, digits: string)
    requires digits == DigitText(Magnitude(n), spec.kind, sep) && spec.precision > |digits|
    requires prefix == PrefixWithPrecision(SignPrefix(n, spec) + BasePrefix(spec))
    requires zeros == Repeat('0', spec.precision - |digits|)
    ensures var pad := Repeat(spec.fill, if spec.width > |prefix| + spec.precision then spec.width - |prefix| - spec.precision else 0);
      IntText(n, spec, sep) == if spec.align == AlignLeft then prefix + (zeros + digits) + pad else pad + (prefix + (zeros + digits))
  {
    var number := prefix + zeros;
    Regrouped(prefix, zeros, digits);
    if spec.width > |prefix| + spec.precision {
      var pad := Repeat(spec.fill, spec.width - |prefix| - spec.precision);
      Regrouped(pad, number, digits);
      Regrouped(pad + number, digits, "");
    } else {
      Regrouped(number, digits, "");
      assert "" + (number + digits) == number + digits && number + digits + "" == number + digits;
    }
  }
}
