/** The written form of a printf conversion, and the parser's reading of it. */
module PrintfSpecs {
  import opened Options
  import opened Numerals
  import opened FormatIntegers
  import opened WriteIntegers
  import opened FormatterBases
  import opened PrintfFormatters
  import opened FormatSpecs

  function IndexText(index: Option<nat>): string {
    match index
    case None => ""
    case Some(i) => Decimal(i) + "$"
  }

  function IndexOf(index: Option<nat>): nat {
    match index
    case None => NO_INDEX
    case Some(i) => i
  }

  predicate AllFlags(flags: string) {
    forall i | 0 <= i < |flags| :: IsFlag(flags[i])
  }

  /** What can follow the width: a dot or the type. */
  predicate EndsWidth(c: char) {
    c == '.' || IsLetter(c)
  }

  lemma {:induction false} FlagRun(f: CString, s: nat, flags: string, rest: string, spec: Spec)
    requires Ahead(f, s, flags + rest) && AllFlags(flags) && rest != "" && !IsFlag(rest[0])
    ensures FlagsFrom(f, s, spec).1 == s + |flags|
    decreases |flags|
  {
    AheadChar(f, s, flags + rest, 0);
    if flags != "" {
      assert flags + rest == [flags[0]] + (flags[1..] + rest);
      AheadSplit(f, s, [flags[0]], flags[1..] + rest);
      FlagRun(f, s + 1, flags[1..], rest, WithFlag(spec, flags[0]));
    }
  }

  lemma FlagsRead(f: CString, s: nat, flags: string, rest: string, spec: Spec)
    requires Ahead(f, s, flags + rest) && AllFlags(flags) && rest != "" && !IsFlag(rest[0])
    ensures FlagsFrom(f, s, spec) == (WithFlags(spec, flags), s + |flags|)
  {
    FlagRun(f, s, flags, rest, spec);
    FlagsAreASet(f, s, spec);
    AheadSplit(f, s, flags, rest);
    assert f[s..s + |flags|] == f[s..][..|flags|];
  }

  lemma WidthHead(spec: Spec, rest: string)
    requires rest != "" && EndsWidth(rest[0])
    ensures (WidthText(spec) + rest)[0] == if spec.width == 0 then rest[0] else Decimal(spec.width)[0]
    ensures !IsFlag((WidthText(spec) + rest)[0])
  {
    DecimalHead(spec.width);
  }

  lemma StarWidthReads(f: CString, s: nat, args: seq<Argument>, b: Base, spec: Spec, had: Spec, rest: string)
    requires b.next >= -1 && spec.width <= INT_MAX && had.width == 0
    requires Ahead(f, s, WidthText(spec) + rest) && rest != "" && EndsWidth(rest[0])
    ensures StarWidthAt(f, s, args, b, had) == Moved(had.(width := spec.width), s + |WidthText(spec)|, b)
  {
    AheadSplit(f, s, WidthText(spec), rest);
    AheadChar(f, s + |WidthText(spec)|, rest, 0);
    if spec.width != 0 {
      NumberReadsBack(f, s, spec.width);
    }
  }

  lemma AfterIndexChain(f: CString, s: nat, args: seq<Argument>, b: Base, argIndex: nat, had: Spec, x: Spec, p: nat,
                        y: Spec, q: nat)
    requires s <= |f| && b.next >= -1 && FlagsFrom(f, s, had) == (x, p)
    requires StarWidthAt(f, p, args, b, x) == Moved(y, q, b)
    ensures AfterIndex(f, s, args, b, argIndex, had) == Moved(Header(argIndex, y), q, b)
  {
  }

  /** Flags and a width, of which `x` and `q` are the outcome. */
  lemma AfterIndexReads(f: CString, s: nat, args: seq<Argument>, b: Base, argIndex: nat, flags: string,
                        spec: Spec, had: Spec, rest: string, x: Spec, q: nat)
    requires b.next >= -1 && spec.width <= INT_MAX && had.width == 0 && AllFlags(flags)
    requires Ahead(f, s, flags + (WidthText(spec) + rest)) && rest != "" && EndsWidth(rest[0])
    requires x == WithFlags(had, flags).(width := spec.width) && q == s + |flags| + |WidthText(spec)|
    ensures AfterIndex(f, s, args, b, argIndex, had) == Moved(Header(argIndex, x), q, b)
  {
    WidthHead(spec, rest);
    FlagsRead(f, s, flags, WidthText(spec) + rest, had);
    AheadSplit(f, s, flags, WidthText(spec) + rest);
    StarWidthReads(f, s + |flags|, args, b, spec, WithFlags(had, flags), rest);
    AfterIndexChain(f, s, args, b, argIndex, had, WithFlags(had, flags), s + |flags|, x, q);
  }

  // ---- numbers with leading zeros ------------------------------------------------------------------

  lemma {:induction false} ZeroInFront(ds: seq<nat>, b: nat)
    ensures Value([0] + ds, b) == Value(ds, b)
  {
    if ds == [] {
      assert ([0] + ds)[..0] == [] && [0] + ds == [0];
    } else {
      var init := ds[..|ds| - 1];
      ZeroInFront(init, b);
      assert ([0] + ds)[..|ds|] == [0] + init;
    }
  }

  lemma ZeroBefore(t: string)
    requires AllDigits(t)
    ensures AllDigits("0" + t) && NumeralValue("0" + t) == NumeralValue(t)
  {
    ZeroInFront(DigitValues(t), 10);
    assert DigitValues("0" + t) == [0] + DigitValues(t);
  }

  predicate AllZeros(z: string) {
    forall i | 0 <= i < |z| :: z[i] == '0'
  }

  lemma {:induction false} ZerosBefore(z: string, t: string)
    requires AllZeros(z) && AllDigits(t)
    ensures AllDigits(z + t) && NumeralValue(z + t) == NumeralValue(t)
    decreases |z|
  {
    if z == "" {
      assert z + t == t;
    } else {
      ZerosBefore(z[1..], t);
      ZeroBefore(z[1..] + t);
      assert z + t == "0" + (z[1..] + t);
    }
  }

  lemma WidthValue(spec: Spec)
    ensures AllDigits(WidthText(spec)) && NumeralValue(WidthText(spec)) == spec.width
  {
    DecimalIsDigits(spec.width);
    assert DigitValues("") == [];
  }

  lemma {:induction false} LeadingZeros(flags: string) returns (z: string, other: string)
    ensures flags == z + other && AllZeros(z) && (other == "" || other[0] != '0')
    ensures AllFlags(flags) ==> AllFlags(other)
    ensures flags != "" && flags[0] == '0' ==> z != ""
  {
    if flags == "" || flags[0] != '0' {
      z, other := "", flags;
    } else {
      z, other := LeadingZeros(flags[1..]);
      z := "0" + z;
    }
    assert forall i | 0 <= i < |other| :: other[i] == flags[|z| + i];
  }

  lemma ZeroFlags(z: string, other: string)
    requires AllZeros(z) && z != ""
    ensures WithFlags(RIGHT_ALIGNED.(fill := '0'), other) == WithFlags(RIGHT_ALIGNED, z + other)
  {
    assert z[0] == '0' && '0' in z + other;
    assert forall c | c != '0' :: c in z + other <==> c in other;
  }

  // ---- the head of a conversion --------------------------------------------------------------------

  /** A number made of zeros and the width. */
  lemma ZerosAndWidth(f: CString, s: nat, z: string, spec: Spec, rest: string)
    requires spec.width <= INT_MAX && AllZeros(z) && z != "" && rest != "" && EndsWidth(rest[0])
    requires Ahead(f, s, z + (WidthText(spec) + rest))
    ensures s < |f| && DigitAt(f, s) && f[s] == '0' && s + |z| + |WidthText(spec)| < |f|
    ensures NumberAt(f, s) == Go(spec.width, s + |z| + |WidthText(spec)|)
    ensures CharAt(f, s + |z| + |WidthText(spec)|) == rest[0]
  {
    var t := z + WidthText(spec);
    assert z + (WidthText(spec) + rest) == t + rest;
    WidthValue(spec);
    ZerosBefore(z, WidthText(spec));
    AheadSplit(f, s, t, rest);
    AheadChar(f, s + |t|, rest, 0);
    AheadChar(f, s, t, 0);
    NumberReads(f, s, t);
  }

  /** Zeros alone, in front of another flag. */
  lemma ZerosAlone(f: CString, s: nat, z: string, rest: string)
    requires AllZeros(z) && z != "" && rest != "" && IsFlag(rest[0]) && rest[0] != '0'
    requires Ahead(f, s, z + rest)
    ensures s < |f| && DigitAt(f, s) && f[s] == '0' && s + |z| < |f|
    ensures NumberAt(f, s) == Go(0, s + |z|) && CharAt(f, s + |z|) == rest[0] && Ahead(f, s + |z|, rest)
  {
    ZerosBefore(z, "");
    assert z + "" == z && DigitValues("") == [];
    AheadSplit(f, s, z, rest);
    AheadChar(f, s + |z|, rest, 0);
    AheadChar(f, s, z, 0);
    NumberReads(f, s, z);
  }

  /** Flags that are all zeros are read as one number together with the width. */
  lemma ZeroFlagsRead(f: CString, s: nat, args: seq<Argument>, b: Base, z: string, spec: Spec, rest: string,
                      x: Spec, q: nat)
    requires b.next >= -1 && spec.width <= INT_MAX && rest != "" && EndsWidth(rest[0])
    requires AllZeros(z) && z != "" && Ahead(f, s, z + (WidthText(spec) + rest))
    requires x == RIGHT_ALIGNED.(fill := '0', width := spec.width) && q == s + |z| + |WidthText(spec)|
    ensures HeaderAt(f, s, args, b) == Moved(Header(NO_INDEX, x), q, b)
  {
    ZerosAndWidth(f, s, z, spec, rest);
    if spec.width == 0 {
      AheadSplit(f, s, z, WidthText(spec) + rest);
      assert "" + (WidthText(spec) + rest) == WidthText(spec) + rest;
      AfterIndexReads(f, q, args, b, NO_INDEX, "", spec, RIGHT_ALIGNED.(fill := '0'), rest, x, q);
      HeaderWithZero(f, s, args, b, q, Moved(Header(NO_INDEX, x), q, b));
    } else {
      HeaderWithWidth(f, s, args, b, spec.width, q);
    }
  }

  /** Flags that begin with zeros: these are read as a number first. */
  lemma ZerosFirst(f: CString, s: nat, args: seq<Argument>, b: Base, z: string, other: string, spec: Spec, rest: string,
                   x: Spec, p: nat, q: nat)
    requires b.next >= -1 && spec.width <= INT_MAX && rest != "" && EndsWidth(rest[0])
    requires AllZeros(z) && z != "" && AllFlags(other) && other != "" && other[0] != '0'
    requires Ahead(f, s, z + (other + (WidthText(spec) + rest)))
    requires x == WithFlags(RIGHT_ALIGNED.(fill := '0'), other).(width := spec.width)
    requires p == s + |z| && q == p + |other| + |WidthText(spec)|
    ensures HeaderAt(f, s, args, b) == Moved(Header(NO_INDEX, x), q, b)
  {
    ZerosAlone(f, s, z, other + (WidthText(spec) + rest));
    AfterIndexReads(f, p, args, b, NO_INDEX, other, spec, RIGHT_ALIGNED.(fill := '0'), rest, x, q);
    HeaderWithZero(f, s, args, b, p, Moved(Header(NO_INDEX, x), q, b));
  }

  /** No flags: a width, if there is one, is the number at the start. */
  lemma NoFlagsRead(f: CString, s: nat, args: seq<Argument>, b: Base, spec: Spec, rest: string, x: Spec, q: nat)
    requires b.next >= -1 && spec.width <= INT_MAX && rest != "" && EndsWidth(rest[0])
    requires Ahead(f, s, WidthText(spec) + rest)
    requires x == RIGHT_ALIGNED.(width := spec.width) && q == s + |WidthText(spec)|
    ensures HeaderAt(f, s, args, b) == Moved(Header(NO_INDEX, x), q, b)
  {
    var w := WidthText(spec);
    WidthHead(spec, rest);
    AheadChar(f, s, w + rest, 0);
    if spec.width == 0 {
      HeaderWithoutNumber(f, s, args, b);
      assert "" + (w + rest) == w + rest;
      AfterIndexReads(f, s, args, b, NO_INDEX, "", spec, RIGHT_ALIGNED, rest, x, q);
    } else {
      AheadSplit(f, s, w, rest);
      AheadChar(f, q, rest, 0);
      DecimalHead(spec.width);
      NumberReadsBack(f, s, spec.width);
      HeaderWithWidth(f, s, args, b, spec.width, q);
    }
  }

  lemma ZeroFirstReads(f: CString, s: nat, args: seq<Argument>, b: Base, flags: string, spec: Spec, rest: string,
                       x: Spec, q: nat)
    requires b.next >= -1 && spec.width <= INT_MAX && rest != "" && EndsWidth(rest[0])
    requires AllFlags(flags) && flags != "" && flags[0] == '0'
    requires Ahead(f, s, flags + (WidthText(spec) + rest))
    requires x == WithFlags(RIGHT_ALIGNED, flags).(width := spec.width) && q == s + |flags| + |WidthText(spec)|
    ensures HeaderAt(f, s, args, b) == Moved(Header(NO_INDEX, x), q, b)
  {
    var after := WidthText(spec) + rest;
    var z, other := LeadingZeros(flags);
    ZeroFlags(z, other);
    if other == "" {
      assert z == flags;
      ZeroFlagsRead(f, s, args, b, z, spec, rest, x, q);
    } else {
      assert z + (other + after) == flags + after;
      ZerosFirst(f, s, args, b, z, other, spec, rest, x, s + |z|, q);
    }
  }

  lemma NoIndexReads(f: CString, s: nat, args: seq<Argument>, b: Base, flags: string, spec: Spec, rest: string,
                     x: Spec, q: nat)
    requires b.next >= -1 && spec.width <= INT_MAX && rest != "" && EndsWidth(rest[0]) && AllFlags(flags)
    requires Ahead(f, s, flags + (WidthText(spec) + rest))
    requires x == WithFlags(RIGHT_ALIGNED, flags).(width := spec.width) && q == s + |flags| + |WidthText(spec)|
    ensures HeaderAt(f, s, args, b) == Moved(Header(NO_INDEX, x), q, b)
  {
    var after := WidthText(spec) + rest;
    if flags == "" {
      assert flags + after == after;
      NoFlagsRead(f, s, args, b, spec, rest, x, q);
    } else if flags[0] == '0' {
      ZeroFirstReads(f, s, args, b, flags, spec, rest, x, q);
    } else {
      AheadChar(f, s, flags + after, 0);
      HeaderWithoutNumber(f, s, args, b);
      AfterIndexReads(f, s, args, b, NO_INDEX, flags, spec, RIGHT_ALIGNED, rest, x, q);
    }
  }

  lemma IndexReads(f: CString, s: nat, i: nat, rest: string) returns (p: nat)
    requires i <= INT_MAX && Ahead(f, s, (Decimal(i) + "$") + rest)
    ensures p == s + |Decimal(i)| < |f| && CharAt(f, p) == '$' && Ahead(f, p + 1, rest)
    ensures s < |f| && DigitAt(f, s) && NumberAt(f, s) == Go(i, p)
  {
    p := s + |Decimal(i)|;
    AheadSplit(f, s, Decimal(i) + "$", rest);
    AheadSplit(f, s, Decimal(i), "$");
    AheadChar(f, p, "$", 0);
    NumberReadsBack(f, s, i);
  }

  lemma IndexPlace(f: CString, s: nat, i: nat, rest: string)
    requires Ahead(f, s, (Decimal(i) + "$") + rest)
    ensures s + |Decimal(i)| + 1 <= |f| && Ahead(f, s + |Decimal(i)| + 1, rest)
  {
    AheadSplit(f, s, Decimal(i) + "$", rest);
  }

  lemma IndexedAfter(f: CString, s: nat, args: seq<Argument>, b: Base, i: nat, p: nat, flags: string, spec: Spec,
                     rest: string, had: Spec, x: Spec, q: nat)
    requires p == s + |Decimal(i)| + 1 && b.next >= -1 && spec.width <= INT_MAX && rest != "" && EndsWidth(rest[0]) && AllFlags(flags)
    requires Ahead(f, s, (Decimal(i) + "$") + (flags + (WidthText(spec) + rest)))
    requires had.width == 0 && x == WithFlags(had, flags).(width := spec.width)
    requires q == p + |flags| + |WidthText(spec)|
    ensures p <= |f| && AfterIndex(f, p, args, b, i, had) == Moved(Header(i, x), q, b)
  {
    var tail := flags + (WidthText(spec) + rest);
    assert p <= |f| && Ahead(f, p, tail) by {
      IndexPlace(f, s, i, tail);
    }
    AfterIndexReads(f, p, args, b, i, flags, spec, had, rest, x, q);
  }

  lemma IndexThen(f: CString, s: nat, args: seq<Argument>, b: Base, i: nat, p: nat, rest: string, r: Traced<Header>)
    requires i <= INT_MAX && Ahead(f, s, (Decimal(i) + "$") + rest) && b.next >= -1
    requires p == s + |Decimal(i)| + 1 <= |f| && AfterIndex(f, p, args, b, i, RIGHT_ALIGNED) == r
    ensures HeaderAt(f, s, args, b) == r
  {
    var dollar := IndexReads(f, s, i, rest);
    HeaderWithIndex(f, s, args, b, i, dollar, r);
  }

  lemma IndexedReads(f: CString, s: nat, args: seq<Argument>, b: Base, i: nat, flags: string, spec: Spec, rest: string,
                     x: Spec, q: nat)
    requires b.next >= -1 && spec.width <= INT_MAX && rest != "" && EndsWidth(rest[0]) && AllFlags(flags)
    requires i <= INT_MAX && Ahead(f, s, (Decimal(i) + "$") + (flags + (WidthText(spec) + rest)))
    requires x == WithFlags(RIGHT_ALIGNED, flags).(width := spec.width)
    requires q == s + |Decimal(i)| + 1 + |flags| + |WidthText(spec)|
    ensures HeaderAt(f, s, args, b) == Moved(Header(i, x), q, b)
  {
    var p, r := s + |Decimal(i)| + 1, Moved(Header(i, x), q, b);
    assert p <= |f| && AfterIndex(f, p, args, b, i, RIGHT_ALIGNED) == r by {
      IndexedAfter(f, s, args, b, i, p, flags, spec, rest, RIGHT_ALIGNED, x, q);
    }
    IndexThen(f, s, args, b, i, p, flags + (WidthText(spec) + rest), r);
  }

  lemma HeaderReads(f: CString, s: nat, args: seq<Argument>, b: Base, index: Option<nat>, flags: string, spec: Spec,
                    rest: string, x: Spec, q: nat)
    requires b.next >= -1 && spec.width <= INT_MAX && rest != "" && EndsWidth(rest[0]) && AllFlags(flags)
    requires index.Some? ==> index.value <= INT_MAX
    requires Ahead(f, s, IndexText(index) + (flags + (WidthText(spec) + rest)))
    requires x == WithFlags(RIGHT_ALIGNED, flags).(width := spec.width)
    requires q == s + |IndexText(index)| + |flags| + |WidthText(spec)|
    ensures HeaderAt(f, s, args, b) == Moved(Header(IndexOf(index), x), q, b)
  {
    match index
    case Some(i) => IndexedReads(f, s, args, b, i, flags, spec, rest, x, q);
    case None =>
      assert "" + (flags + (WidthText(spec) + rest)) == flags + (WidthText(spec) + rest);
      NoIndexReads(f, s, args, b, flags, spec, rest, x, q);
  }

  lemma PrecisionNumber(f: CString, s: nat, n: nat, kind: char)
    requires n <= INT_MAX && IsLetter(kind) && Ahead(f, s, ("." + Decimal(n)) + [kind])
    ensures s + 1 < |f| && CharAt(f, s) == '.' && DigitAt(f, s + 1)
    ensures NumberAt(f, s + 1) == Go(n, s + 1 + |Decimal(n)|)
  {
    AheadSplit(f, s, "." + Decimal(n), [kind]);
    AheadSplit(f, s, ".", Decimal(n));
    AheadChar(f, s, ".", 0);
    AheadChar(f, s + 1 + |Decimal(n)|, [kind], 0);
    NumberReadsBack(f, s + 1, n);
  }

  lemma StarPrecisionReads(f: CString, s: nat, args: seq<Argument>, b: Base, spec: Spec, had: Spec, kind: char,
                           x: Spec, q: nat)
    requires b.next >= -1 && -1 <= spec.precision <= INT_MAX && had.precision == -1 && IsLetter(kind)
    requires Ahead(f, s, PrecisionText(spec) + [kind])
    requires x == had.(precision := spec.precision) && q == s + |PrecisionText(spec)|
    ensures StarPrecisionAt(f, s, args, b, had) == Moved(x, q, b)
  {
    if spec.precision >= 0 {
      PrecisionNumber(f, s, spec.precision, kind);
    } else {
      AheadChar(f, s, "" + [kind], 0);
    }
  }

  lemma PrecisionHead(spec: Spec, kind: char)
    requires IsLetter(kind)
    ensures PrecisionText(spec) + [kind] != "" && EndsWidth((PrecisionText(spec) + [kind])[0])
  {
  }

  /** A conversion as written: the index with its `$`, flags, width, precision and a type letter. */
  function ConversionText(index: Option<nat>, flags: string, spec: Spec, kind: char): string {
    IndexText(index) + (flags + (WidthText(spec) + (PrecisionText(spec) + [kind])))
  }

  lemma ConversionChain(f: CString, s: nat, args: seq<Argument>, b: Base, h: Header, p: nat, spec: Spec, q: nat)
    requires s <= |f| && b.next >= -1 && HeaderAt(f, s, args, b) == Moved(h, p, b)
    requires StarPrecisionAt(f, p, args, b, h.spec) == Moved(spec, q, b)
    ensures ConversionAt(f, s, args, b) == ArgumentAt(f, q, args, b, h.argIndex, spec)
  {
  }

  lemma ConversionPlaces(f: CString, s: nat, index: Option<nat>, flags: string, spec: Spec, kind: char)
    returns (p: nat, q: nat)
    requires Ahead(f, s, ConversionText(index, flags, spec, kind))
    ensures p == s + |IndexText(index)| + |flags| + |WidthText(spec)| && q == p + |PrecisionText(spec)|
    ensures q + 1 == s + |ConversionText(index, flags, spec, kind)| <= |f| && CharAt(f, q) == kind
    ensures Ahead(f, p, PrecisionText(spec) + [kind])
  {
    var rest := PrecisionText(spec) + [kind];
    AheadSplit(f, s, IndexText(index), flags + (WidthText(spec) + rest));
    ThreeParts(f, s + |IndexText(index)|, flags, WidthText(spec), rest);
    p := s + |IndexText(index)| + |flags| + |WidthText(spec)|;
    q := p + |PrecisionText(spec)|;
    AheadSplit(f, p, PrecisionText(spec), [kind]);
    AheadChar(f, q, [kind], 0);
  }

  lemma HeadPart(f: CString, s: nat, args: seq<Argument>, b: Base, index: Option<nat>, flags: string,
                 spec: Spec, kind: char, had: Spec, q: nat) returns (p: nat)
    requires b.next >= -1 && AllFlags(flags) && IsLetter(kind) && (index.Some? ==> index.value <= INT_MAX)
    requires spec.width <= INT_MAX && Ahead(f, s, ConversionText(index, flags, spec, kind))
    requires had == WithFlags(RIGHT_ALIGNED, flags).(width := spec.width)
    requires q == s + |ConversionText(index, flags, spec, kind)| - 1
    ensures q + 1 <= |f| && q == p + |PrecisionText(spec)|
    ensures Ahead(f, p, PrecisionText(spec) + [kind])
    ensures HeaderAt(f, s, args, b) == Moved(Header(IndexOf(index), had), p, b)
  {
    var last;
    p, last := ConversionPlaces(f, s, index, flags, spec, kind);
    PrecisionHead(spec, kind);
    HeaderReads(f, s, args, b, index, flags, spec, PrecisionText(spec) + [kind], had, p);
  }

  /**
   * The parser reads every conversion without stars as it is written: the argument is the one the
   * index asks for, or the next; it is `shown` with exactly those flags, that width and that precision.
   * The type stands at `q`.
   */
  lemma ConversionReadsBack(f: CString, s: nat, args: seq<Argument>, b: Base, index: Option<nat>, flags: string,
                            spec: Spec, kind: char, shown: Spec, q: nat)
    requires b.next >= -1 && AllFlags(flags) && IsLetter(kind) && (index.Some? ==> index.value <= INT_MAX)
    requires spec.width <= INT_MAX && -1 <= spec.precision <= INT_MAX
    requires Ahead(f, s, ConversionText(index, flags, spec, kind))
    requires shown == WithFlags(RIGHT_ALIGNED, flags).(width := spec.width, precision := spec.precision)
    requires q == s + |ConversionText(index, flags, spec, kind)| - 1
    ensures q < |f| && ConversionAt(f, s, args, b) == ArgumentAt(f, q, args, b, IndexOf(index), shown)
  {
    var had := shown.(precision := -1);
    var p := HeadPart(f, s, args, b, index, flags, spec, kind, had, q);
    FromHead(f, s, args, b, IndexOf(index), spec, kind, had, p, shown, q);
  }

  lemma FromHead(f: CString, s: nat, args: seq<Argument>, b: Base, argIndex: nat, spec: Spec, kind: char,
                 had: Spec, p: nat, shown: Spec, q: nat)
    requires s <= |f| && b.next >= -1 && IsLetter(kind) && -1 <= spec.precision <= INT_MAX && had.precision == -1
    requires HeaderAt(f, s, args, b) == Moved(Header(argIndex, had), p, b)
    requires Ahead(f, p, PrecisionText(spec) + [kind]) && q == p + |PrecisionText(spec)|
    requires shown == had.(precision := spec.precision)
    ensures q <= |f| && ConversionAt(f, s, args, b) == ArgumentAt(f, q, args, b, argIndex, shown)
  {
    StarPrecisionReads(f, p, args, b, spec, had, kind, shown, q);
    ConversionChain(f, s, args, b, Header(argIndex, had), p, shown, q);
  }
}
