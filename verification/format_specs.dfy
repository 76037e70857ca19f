/** The written form of a format specification, and the parser's reading of it. */
module FormatSpecs {
  import opened Options
  import opened Numerals
  import opened ArgLists
  import opened FormatIntegers
  import opened WriteIntegers
  import opened FormatterBases
  import opened BasicFormatters

  function AlignChar(align: Alignment): (c: char)
    requires align != AlignDefault
    ensures AlignOf(c) == align
  {
    match align
    case AlignLeft => '<'
    case AlignRight => '>'
    case AlignNumeric => '='
    case AlignCenter => '^'
  }

  predicate IsLetter(c: char) {
    'a' <= c <= 'z' || 'A' <= c <= 'Z'
  }

  function AlignText(spec: Spec): string {
    if spec.align == AlignDefault then "" else [spec.fill, AlignChar(spec.align)]
  }

  function SignText(spec: Spec): string {
    if spec.plus then "+" else if spec.minus then "-" else if spec.sign then " " else ""
  }

  function HashText(spec: Spec): string {
    if spec.hash then "#" else ""
  }

  function WidthText(spec: Spec): string {
    if spec.width == 0 then "" else Decimal(spec.width)
  }

  function PrecisionText(spec: Spec): string {
    if spec.precision < 0 then "" else "." + Decimal(spec.precision)
  }

  function KindText(spec: Spec): string {
    if spec.kind == NUL then "" else [spec.kind]
  }

  function FlagsText(spec: Spec): string {
    AlignText(spec) + SignText(spec) + HashText(spec)
  }

  function SpecText(spec: Spec): string {
    FlagsText(spec) + WidthText(spec) + PrecisionText(spec) + KindText(spec)
  }

  /** A specification that has a written form. */
  predicate Writable(spec: Spec) {
    && (spec.align == AlignDefault ==> spec.fill == ' ')
    && spec.fill !in {'{', '}', NUL}
    && (spec.plus ==> spec.sign) && !(spec.sign && spec.minus)
    && spec.width <= INT_MAX && -1 <= spec.precision <= INT_MAX
    && (spec.kind == NUL || IsLetter(spec.kind))
  }

  /** Why an argument cannot be shown as the flags ask, if it cannot. */
  function FlagsFault(spec: Spec, arg: Argument): Option<Fault> {
    if (spec.align == AlignNumeric || spec.sign || spec.minus) && !IsNumeric(arg) then Some(NeedsNumeric)
    else if (spec.sign || spec.minus) && arg.kind in {KindUInt, KindULongLong} then Some(NeedsSigned)
    else if spec.hash && !IsNumeric(arg) then Some(NeedsNumeric)
    else None
  }

  /** The same for the whole specification: only strings and floating-point numbers take a precision. */
  function SpecFault(spec: Spec, arg: Argument): Option<Fault> {
    if FlagsFault(spec, arg).Some? then FlagsFault(spec, arg)
    else if spec.precision >= 0 && !TakesPrecision(arg) then Some(PrecisionNotAllowed)
    else None
  }

  /** From `s` on the string reads `t`. */
  ghost predicate Ahead(f: CString, s: nat, t: string) {
    s <= |f| && |t| <= |f| - s && f[s..][..|t|] == t
  }

  lemma AheadSplit(f: CString, s: nat, a: string, b: string)
    requires Ahead(f, s, a + b)
    ensures Ahead(f, s, a) && Ahead(f, s + |a|, b)
  {
    assert f[s..][..|a|] == (a + b)[..|a|] == a;
    assert f[s + |a|..][..|b|] == (a + b)[|a|..] == b;
  }

  lemma AheadChar(f: CString, s: nat, t: string, k: nat)
    requires Ahead(f, s, t) && k < |t|
    ensures s + k < |f| && CharAt(f, s + k) == t[k]
  {
    assert f[s..][..|t|][k] == f[s + k];
  }

  lemma DecimalHead(n: nat)
    ensures IsDigit(Decimal(n)[0]) && (n > 0 ==> Decimal(n)[0] != '0')
  {
    DecimalIsDigits(n);
    DigitsMinimal(n, 10);
    assert Decimal(n)[0] == DigitChar(Digits(n, 10)[0], false);
  }

  lemma SignReads(f: CString, s: nat, arg: Argument, spec: Spec, had: Spec, rest: string)
    requires Writable(spec) && Ahead(f, s, SignText(spec) + rest) && rest != "" && rest[0] !in {'+', '-', ' '}
    requires !had.sign && !had.plus && !had.minus
    ensures SignAt(f, s, arg, had)
         == if !(spec.sign || spec.minus) then Go(had, s)
            else if !IsNumeric(arg) then Fail(NeedsNumeric)
            else if arg.kind in {KindUInt, KindULongLong} then Fail(NeedsSigned)
            else Go(had.(sign := spec.sign, plus := spec.plus, minus := spec.minus), s + |SignText(spec)|)
  {
    AheadChar(f, s, SignText(spec) + rest, 0);
  }

  lemma HashReads(f: CString, s: nat, arg: Argument, spec: Spec, had: Spec, rest: string)
    requires Writable(spec) && Ahead(f, s, HashText(spec) + rest) && rest != "" && rest[0] != '#'
    requires !had.hash
    ensures HashAt(f, s, arg, had)
         == if spec.hash && !IsNumeric(arg) then Fail(NeedsNumeric)
            else Go(had.(hash := spec.hash), s + |HashText(spec)|)
  {
    AheadChar(f, s, HashText(spec) + rest, 0);
  }

  lemma AlignReads(f: CString, s: nat, arg: Argument, spec: Spec, rest: string)
    requires Writable(spec) && Ahead(f, s, AlignText(spec) + rest)
    requires |rest| >= 1 && rest[0] != NUL && AlignOf(rest[0]) == AlignDefault
    requires spec.align == AlignDefault ==> AlignOf(CharAt(f, s + 1)) == AlignDefault
    ensures AlignAt(f, s, arg)
         == if spec.align == AlignNumeric && !IsNumeric(arg) then Fail(NeedsNumeric)
            else Go(PLAIN.(align := spec.align, fill := spec.fill), s + |AlignText(spec)|)
  {
    AheadChar(f, s, AlignText(spec) + rest, 0);
    if spec.align != AlignDefault {
      AheadChar(f, s, AlignText(spec) + rest, 1);
    }
  }

  lemma WidthReads(f: CString, s: nat, args: seq<Argument>, b: Base, spec: Spec, had: Spec, rest: string)
    requires Writable(spec) && b.next >= -1 && had.width == 0
    requires Ahead(f, s, WidthText(spec) + rest) && rest != "" && !IsDigit(rest[0]) && rest[0] != '{'
    ensures s <= |f| && WidthAt(f, s, args, b, had) == Moved(had.(width := spec.width), s + |WidthText(spec)|, b)
  {
    AheadSplit(f, s, WidthText(spec), rest);
    AheadChar(f, s + |WidthText(spec)|, rest, 0);
    if spec.width != 0 {
      NumberReadsBack(f, s, spec.width);
    }
  }

  lemma PrecisionReads(f: CString, s: nat, arg: Argument, args: seq<Argument>, b: Base, spec: Spec, had: Spec, rest: string)
    requires Writable(spec) && b.next >= -1 && had.precision == -1
    requires Ahead(f, s, PrecisionText(spec) + rest) && rest != "" && !IsDigit(rest[0]) && rest[0] != '.'
    ensures PrecisionAt(f, s, arg, args, b, had)
         == if spec.precision >= 0 && !TakesPrecision(arg) then Stopped(PrecisionNotAllowed)
            else Moved(had.(precision := spec.precision), s + |PrecisionText(spec)|, b)
  {
    AheadSplit(f, s, PrecisionText(spec), rest);
    AheadChar(f, s + |PrecisionText(spec)|, rest, 0);
    if spec.precision >= 0 {
      AheadSplit(f, s, ".", Decimal(spec.precision));
      AheadChar(f, s, ".", 0);
      NumberReadsBack(f, s + 1, spec.precision);
    }
  }

  lemma KindReads(f: CString, s: nat, spec: Spec, had: Spec)
    requires Writable(spec) && Ahead(f, s, KindText(spec) + "}") && had.kind == NUL
    ensures KindAt(f, s, had) == Go(had.(kind := spec.kind), s + |KindText(spec)| + 1)
  {
    AheadChar(f, s, KindText(spec) + "}", 0);
    AheadChar(f, s, KindText(spec) + "}", |KindText(spec)|);
  }

  /** What can stand at the head of each part. */
  lemma Heads(spec: Spec)
    requires Writable(spec)
    ensures var k := KindText(spec) + "}"; var p := PrecisionText(spec) + k;
      var w := WidthText(spec) + p; var h := HashText(spec) + w; var g := SignText(spec) + h;
      && (k[0] == '}' || IsLetter(k[0])) && (p[0] == '.' || p[0] == k[0])
      && (w[0] == p[0] || (IsDigit(w[0]) && w[0] != '0')) && (h[0] == '#' || h[0] == w[0])
      && (g[0] == h[0] || g[0] in {'+', '-', ' '})
  {
    DecimalHead(spec.width);
    var p := PrecisionText(spec) + (KindText(spec) + "}");
    assert (WidthText(spec) + p)[0] == if spec.width == 0 then p[0] else Decimal(spec.width)[0];
  }

  lemma ThreeParts(f: CString, s: nat, a: string, b: string, c: string)
    requires Ahead(f, s, a + (b + c))
    ensures Ahead(f, s + |a|, b + c) && Ahead(f, s + |a| + |b|, c)
  {
    AheadSplit(f, s, a, b + c);
    AheadSplit(f, s + |a|, b, c);
  }

  lemma FlagsChain(f: CString, s: nat, arg: Argument, align: Step<Spec>, sign: Step<Spec>, hash: Step<Spec>)
    requires s <= |f| && AlignAt(f, s, arg) == align
    requires align.Go? ==> SignAt(f, align.pos, arg, align.value) == sign
    requires align.Go? && sign.Go? ==> HashAt(f, sign.pos, arg, sign.value) == hash
    requires align.Go? && sign.Go? && hash.Go? ==> CharAt(f, hash.pos) != '0'
    ensures FlagsAt(f, s, arg) == if align.Fail? then align else if sign.Fail? then sign else hash
  {
  }

  lemma FlagsRead(f: CString, s: nat, arg: Argument, spec: Spec, w: string)
    requires Writable(spec) && Ahead(f, s, AlignText(spec) + (SignText(spec) + (HashText(spec) + w)))
    requires w != "" && (w[0] in {'}', '.'} || IsLetter(w[0]) || (IsDigit(w[0]) && w[0] != '0'))
    requires spec.align == AlignDefault ==> s + 1 <= |f| && AlignOf(CharAt(f, s + 1)) == AlignDefault
    ensures FlagsAt(f, s, arg)
         == if FlagsFault(spec, arg).Some? then Fail(FlagsFault(spec, arg).value)
            else Go(spec.(width := 0, precision := -1, kind := NUL), s + |FlagsText(spec)|)
  {
    var a, g, h := AlignText(spec), SignText(spec), HashText(spec);
    var x1 := PLAIN.(align := spec.align, fill := spec.fill);
    var x2 := x1.(sign := spec.sign, plus := spec.plus, minus := spec.minus);
    var s1, s2 := s + |a|, s + |a| + |g|;
    ThreeParts(f, s, a, g, h + w);
    FlagHeads(g, h, w, spec);
    AlignReads(f, s, arg, spec, g + (h + w));
    SignReads(f, s1, arg, spec, x1, h + w);
    HashThenOther(f, s2, arg, spec, x2, w);
    FlagsChain(f, s, arg, AlignAt(f, s, arg), SignAt(f, s1, arg, x1), HashAt(f, s2, arg, x2));
  }

  lemma HashThenOther(f: CString, s: nat, arg: Argument, spec: Spec, had: Spec, w: string)
    requires Writable(spec) && Ahead(f, s, HashText(spec) + w) && w != "" && w[0] !in {'#', '0'}
    requires !had.hash
    ensures HashAt(f, s, arg, had)
         == if spec.hash && !IsNumeric(arg) then Fail(NeedsNumeric)
            else Go(had.(hash := spec.hash), s + |HashText(spec)|)
    ensures s + |HashText(spec)| <= |f| && CharAt(f, s + |HashText(spec)|) != '0'
  {
    HashReads(f, s, arg, spec, had, w);
    AheadSplit(f, s, HashText(spec), w);
    AheadChar(f, s + |HashText(spec)|, w, 0);
  }

  lemma FlagHeads(g: string, h: string, w: string, spec: Spec)
    requires g == SignText(spec) && h == HashText(spec)
    requires w != "" && (w[0] in {'}', '.'} || IsLetter(w[0]) || (IsDigit(w[0]) && w[0] != '0'))
    ensures (h + w)[0] !in {'+', '-', ' '} && w[0] != '#'
    ensures (g + (h + w))[0] != NUL && AlignOf((g + (h + w))[0]) == AlignDefault
  {
  }

  lemma SizesPlaces(f: CString, s: nat, spec: Spec, k: string) returns (s1: nat, s2: nat)
    requires Ahead(f, s, WidthText(spec) + (PrecisionText(spec) + k)) && k != "" && (k[0] == '}' || IsLetter(k[0]))
    ensures s1 == s + |WidthText(spec)| && s2 == s1 + |PrecisionText(spec)|
    ensures Ahead(f, s1, PrecisionText(spec) + k)
    ensures PrecisionText(spec) + k != "" && !IsDigit((PrecisionText(spec) + k)[0]) && (PrecisionText(spec) + k)[0] != '{'
  {
    s1 := s + |WidthText(spec)|;
    s2 := s1 + |PrecisionText(spec)|;
    ThreeParts(f, s, WidthText(spec), PrecisionText(spec), k);
    SizeHeads(PrecisionText(spec), k, spec);
  }

  lemma WidthPlace(f: CString, s: nat, s1: nat, args: seq<Argument>, b: Base, spec: Spec, had: Spec,
                   x: Spec, rest: string)
    requires Writable(spec) && b.next >= -1 && had.width == 0 && x == had.(width := spec.width)
    requires Ahead(f, s, WidthText(spec) + rest) && rest != "" && !IsDigit(rest[0]) && rest[0] != '{'
    requires s1 == s + |WidthText(spec)|
    ensures WidthAt(f, s, args, b, had) == Moved(x, s1, b)
  {
    WidthReads(f, s, args, b, spec, had, rest);
  }

  lemma PrecisionPlace(f: CString, s1: nat, s2: nat, arg: Argument, args: seq<Argument>, b: Base, spec: Spec, x: Spec,
                       y: Spec, k: string)
    requires Writable(spec) && b.next >= -1 && x.precision == -1 && y == x.(precision := spec.precision)
    requires Ahead(f, s1, PrecisionText(spec) + k) && k != "" && !IsDigit(k[0]) && k[0] != '.'
    requires s2 == s1 + |PrecisionText(spec)|
    ensures PrecisionAt(f, s1, arg, args, b, x)
         == if spec.precision >= 0 && !TakesPrecision(arg) then Stopped(PrecisionNotAllowed) else Moved(y, s2, b)
  {
    PrecisionReads(f, s1, arg, args, b, spec, x, k);
  }

  lemma SizesRead(f: CString, s: nat, arg: Argument, args: seq<Argument>, b: Base, spec: Spec, had: Spec, k: string)
    requires Writable(spec) && b.next >= -1 && had.width == 0 && had.precision == -1
    requires Ahead(f, s, WidthText(spec) + (PrecisionText(spec) + k)) && k != "" && (k[0] == '}' || IsLetter(k[0]))
    ensures SizesAt(f, s, arg, args, b, had)
         == if spec.precision >= 0 && !TakesPrecision(arg) then Stopped(PrecisionNotAllowed)
            else Moved(had.(width := spec.width, precision := spec.precision),
                       s + |WidthText(spec)| + |PrecisionText(spec)|, b)
  {
    var x := had.(width := spec.width);
    var y := x.(precision := spec.precision);
    var s1, s2 := SizesPlaces(f, s, spec, k);
    WidthPlace(f, s, s1, args, b, spec, had, x, PrecisionText(spec) + k);
    PrecisionPlace(f, s1, s2, arg, args, b, spec, x, y, k);
    SizesChain(f, s, arg, args, b, had, x, s1);
  }

  lemma SizesChain(f: CString, s: nat, arg: Argument, args: seq<Argument>, b: Base, had: Spec, x: Spec, p: nat)
    requires s <= |f| && b.next >= -1 && WidthAt(f, s, args, b, had) == Moved(x, p, b)
    ensures SizesAt(f, s, arg, args, b, had) == PrecisionAt(f, p, arg, args, b, x)
  {
  }

  lemma SizeHeads(p: string, k: string, spec: Spec)
    requires p == PrecisionText(spec) && k != "" && (k[0] == '}' || IsLetter(k[0]))
    ensures p + k != "" && !IsDigit((p + k)[0]) && (p + k)[0] != '{'
  {
  }

  lemma Nest(a: string, b: string, c: string, d: string, e: string, g: string, h: string)
    ensures (((a + b + c) + d + e + g) + h) == a + (b + (c + (d + (e + (g + h)))))
  {
  }

  /** A zero in front of the width is the fill `0` with numeric alignment. */
  lemma ZeroFlagIsFill(f: CString, s: nat, g: CString, t: nat, arg: Argument, rest: string)
    requires Ahead(f, s, "0" + rest) && Ahead(g, t, "0=" + rest)
    requires rest != "" && AlignOf(rest[0]) == AlignDefault && rest[0] !in {'+', '-', ' ', '#', '0'}
    ensures var spec := PLAIN.(align := AlignNumeric, fill := '0');
      && FlagsAt(f, s, arg) == (if IsNumeric(arg) then Go(spec, s + 1) else Fail(NeedsNumeric))
      && FlagsAt(g, t, arg) == (if IsNumeric(arg) then Go(spec, t + 2) else Fail(NeedsNumeric))
  {
    AheadChar(f, s, "0" + rest, 0);
    AheadChar(f, s, "0" + rest, 1);
    AheadChar(g, t, "0=" + rest, 0);
    AheadChar(g, t, "0=" + rest, 1);
    AheadChar(g, t, "0=" + rest, 2);
  }

  ghost predicate NoAlign(t: string) {
    forall i | 0 <= i < |t| :: AlignOf(t[i]) == AlignDefault
  }

  lemma DecimalNoAlign(n: nat)
    ensures NoAlign(Decimal(n))
  {
    DecimalIsDigits(n);
  }

  lemma SpecNoAlign(spec: Spec)
    requires Writable(spec) && spec.align == AlignDefault
    ensures NoAlign(SpecText(spec) + "}")
  {
    DecimalNoAlign(spec.width);
    if spec.precision >= 0 {
      DecimalNoAlign(spec.precision);
    }
    assert NoAlign(FlagsText(spec)) && NoAlign(WidthText(spec));
    assert NoAlign(PrecisionText(spec)) && NoAlign(KindText(spec));
    FourNoAlign(FlagsText(spec), WidthText(spec), PrecisionText(spec), KindText(spec));
  }

  lemma FourNoAlign(a: string, b: string, c: string, d: string)
    requires NoAlign(a) && NoAlign(b) && NoAlign(c) && NoAlign(d)
    ensures NoAlign(a + b + c + d + "}")
  {
  }

  /** Without an alignment the first two characters are none either. */
  lemma NoAlignAhead(f: CString, s: nat, t: string)
    requires Ahead(f, s, t + "}") && NoAlign(t + "}")
    requires t != ""
    ensures AlignOf(CharAt(f, s + 1)) == AlignDefault
  {
    AheadChar(f, s, t + "}", 1);
  }

  lemma SpecChain(f: CString, s: nat, arg: Argument, args: seq<Argument>, b: Base,
                  flags: Step<Spec>, sizes: Traced<Spec>, kind: Step<Spec>)
    requires s < |f| && b.next >= -1 && CharAt(f, s) == ':' && FlagsAt(f, s + 1, arg) == flags
    requires flags.Go? ==> SizesAt(f, flags.pos, arg, args, b, flags.value) == sizes
    requires flags.Go? && sizes.Moved? ==> KindAt(f, sizes.pos, sizes.value) == kind && kind.Go? && sizes.base == b
    ensures SpecAt(f, s, arg, args, b)
         == if flags.Fail? then Stopped(flags.fault) else if sizes.Stopped? then Stopped(sizes.fault)
            else Moved(kind.value, kind.pos, b)
  {
  }

  lemma SpecSplit(f: CString, s: nat, a: string, g: string, h: string, w: string, p: string, k: string)
    requires Ahead(f, s, ":" + ((((a + g + h) + w + p + k) + "}")))
    ensures CharAt(f, s) == ':'
    ensures Ahead(f, s + 1, a + (g + (h + (w + (p + (k + "}"))))))
    ensures Ahead(f, s + 1 + |a + g + h|, w + (p + (k + "}")))
    ensures Ahead(f, s + 1 + |a + g + h| + |w| + |p|, k + "}")
  {
    var rest := w + (p + (k + "}"));
    AheadChar(f, s, ":" + ((((a + g + h) + w + p + k) + "}")), 0);
    AheadSplit(f, s, ":", ((a + g + h) + w + p + k) + "}");
    Nest(a, g, h, w, p, k, "}");
    ThreeParts(f, s + 1, a, g, h + rest);
    AheadSplit(f, s + 1 + |a| + |g|, h, rest);
    ThreeParts(f, s + 1 + |a| + |g| + |h|, w, p, k + "}");
  }

  lemma SizesHead(spec: Spec, w: string)
    requires Writable(spec) && w == WidthText(spec) + (PrecisionText(spec) + (KindText(spec) + "}"))
    ensures w != "" && (w[0] in {'}', '.'} || IsLetter(w[0]) || (IsDigit(w[0]) && w[0] != '0'))
  {
    Heads(spec);
  }

  lemma FirstTwo(f: CString, s: nat, spec: Spec)
    requires Writable(spec) && Ahead(f, s, ":" + (SpecText(spec) + "}")) && spec.align == AlignDefault
    requires SpecText(spec) != ""
    ensures s + 2 <= |f| && AlignOf(CharAt(f, s + 2)) == AlignDefault
  {
    SpecNoAlign(spec);
    AheadSplit(f, s, ":", SpecText(spec) + "}");
    NoAlignAhead(f, s + 1, SpecText(spec));
  }

  lemma FlagsPart(f: CString, s: nat, arg: Argument, spec: Spec, p1: nat)
    requires Writable(spec) && Ahead(f, s, ":" + (SpecText(spec) + "}")) && p1 == s + 1 + |FlagsText(spec)|
    requires SpecText(spec) != ""
    ensures FlagsAt(f, s + 1, arg)
         == if FlagsFault(spec, arg).Some? then Fail(FlagsFault(spec, arg).value)
            else Go(spec.(width := 0, precision := -1, kind := NUL), p1)
  {
    var w := WidthText(spec) + (PrecisionText(spec) + (KindText(spec) + "}"));
    if spec.align == AlignDefault {
      FirstTwo(f, s, spec);
    }
    SpecSplit(f, s, AlignText(spec), SignText(spec), HashText(spec),
              WidthText(spec), PrecisionText(spec), KindText(spec));
    SizesHead(spec, w);
    FlagsRead(f, s + 1, arg, spec, w);
  }

  /** Where the flags end and where the type begins. */
  lemma Places(f: CString, s: nat, spec: Spec) returns (p1: nat, p2: nat)
    requires Ahead(f, s, ":" + (SpecText(spec) + "}"))
    ensures p1 == s + 1 + |FlagsText(spec)| <= |f| && CharAt(f, s) == ':'
    ensures p2 == p1 + |WidthText(spec)| + |PrecisionText(spec)|
    ensures p2 + |KindText(spec)| + 1 == s + |SpecText(spec)| + 2
    ensures Ahead(f, p1, WidthText(spec) + (PrecisionText(spec) + (KindText(spec) + "}")))
    ensures Ahead(f, p2, KindText(spec) + "}")
  {
    SpecSplit(f, s, AlignText(spec), SignText(spec), HashText(spec),
              WidthText(spec), PrecisionText(spec), KindText(spec));
    p1 := s + 1 + |FlagsText(spec)|;
    p2 := p1 + |WidthText(spec)| + |PrecisionText(spec)|;
  }

  lemma SizesPlace(f: CString, arg: Argument, args: seq<Argument>, b: Base, spec: Spec, x: Spec, p1: nat, p2: nat)
    requires Writable(spec) && b.next >= -1 && p2 == p1 + |WidthText(spec)| + |PrecisionText(spec)|
    requires Ahead(f, p1, WidthText(spec) + (PrecisionText(spec) + (KindText(spec) + "}")))
    requires x == spec.(width := 0, precision := -1, kind := NUL)
    ensures SizesAt(f, p1, arg, args, b, x)
         == if spec.precision >= 0 && !TakesPrecision(arg) then Stopped(PrecisionNotAllowed)
            else Moved(spec.(kind := NUL), p2, b)
  {
    SizesRead(f, p1, arg, args, b, spec, x, KindText(spec) + "}");
  }

  /**
   * An empty specification means the defaults, except that the character behind the field counts as
   * its alignment.
   */
  lemma EmptySpecReads(f: CString, s: nat, arg: Argument, args: seq<Argument>, b: Base)
    requires b.next >= -1 && Ahead(f, s, ":}")
    ensures s + 2 <= |f|
    ensures SpecAt(f, s, arg, args, b) == Moved(PLAIN.(align := AlignOf(CharAt(f, s + 2))), s + 2, b)
    ensures SpecAt(f, s, arg, args, b) == Moved(PLAIN, s + 2, b) <==> AlignOf(CharAt(f, s + 2)) == AlignDefault
  {
    AheadChar(f, s, ":}", 0);
    AheadChar(f, s, ":}", 1);
  }

  lemma OnlyPlainIsEmpty(spec: Spec)
    requires Writable(spec) && SpecText(spec) == ""
    ensures spec == PLAIN
  {
    assert |FlagsText(spec)| == 0 && |WidthText(spec)| == 0 && |PrecisionText(spec)| == 0 && |KindText(spec)| == 0;
  }

  /** What the parser makes of a specification that is written out. */
  lemma WrittenSpecReads(f: CString, s: nat, arg: Argument, args: seq<Argument>, b: Base, spec: Spec)
    requires Writable(spec) && b.next >= -1 && Ahead(f, s, ":" + (SpecText(spec) + "}")) && SpecText(spec) != ""
    ensures SpecAt(f, s, arg, args, b)
         == if SpecFault(spec, arg).Some? then Stopped(SpecFault(spec, arg).value)
            else Moved(spec, s + |SpecText(spec)| + 2, b)
  {
    var p1, p2 := Places(f, s, spec);
    var x, y := spec.(width := 0, precision := -1, kind := NUL), spec.(kind := NUL);
    FlagsPart(f, s, arg, spec, p1);
    SizesPlace(f, arg, args, b, spec, x, p1, p2);
    KindReads(f, p2, spec, y);
    SpecChain(f, s, arg, args, b, FlagsAt(f, s + 1, arg), SizesAt(f, p1, arg, args, b, x), KindAt(f, p2, y));
  }

  /** What the parser keeps of a specification: an empty one is aligned by the character behind it. */
  function Kept(f: CString, s: nat, spec: Spec): Spec
    requires SpecText(spec) == "" ==> s + 2 <= |f|
  {
    if SpecText(spec) == "" then spec.(align := AlignOf(CharAt(f, s + 2))) else spec
  }

  /**
   * What the parser makes of the written form of every specification: the specification itself if it
   * suits the argument, and otherwise exactly the fault that it does not.
   */
  lemma SpecReadsBack(f: CString, s: nat, arg: Argument, args: seq<Argument>, b: Base, spec: Spec)
    requires Writable(spec) && b.next >= -1 && Ahead(f, s, ":" + (SpecText(spec) + "}"))
    ensures SpecText(spec) == "" ==> s + 2 <= |f|
    ensures SpecAt(f, s, arg, args, b)
         == if SpecFault(spec, arg).Some? then Stopped(SpecFault(spec, arg).value)
            else Moved(Kept(f, s, spec), s + |SpecText(spec)| + 2, b)
  {
    if SpecText(spec) == "" {
      OnlyPlainIsEmpty(spec);
      assert ":" + ("" + "}") == ":}";
      EmptySpecReads(f, s, arg, args, b);
    } else {
      WrittenSpecReads(f, s, arg, args, b, spec);
    }
  }
}
