/** Which argument a replacement field names, and what text comes out of it. */
module FieldTexts {
  import opened Options
  import opened Numerals
  import opened ArgLists
  import opened FormatIntegers
  import opened WriteIntegers
  import opened IntegerTexts
  import opened Buffers
  import opened Parts
  import opened FormatterBases
  import opened Rendering
  import opened OutputPieces
  import opened BasicFormatters
  import opened FormatRuns
  import opened FormatSpecs
  import opened FormatTexts

  // ---- naming an argument --------------------------------------------------------------------------

  /** An index in a field, wherever it stands: the argument with exactly that number, counted from zero. */
  lemma IndexedArgument(f: CString, s: nat, args: seq<Argument>, b: Base, i: nat, c: char)
    requires i <= INT_MAX && (c == '}' || c == ':') && b.next >= -1 && Ahead(f, s, Decimal(i) + [c])
    ensures ArgAt(f, s, args, b)
         == if b.next > 0 then Stopped(ToManual)
            else if i < |args| then Moved(args[i], s + |Decimal(i)|, Base(-1, b.got + [Got(Index(i), args[i])]))
            else Stopped(OutOfRange)
  {
    AheadSplit(f, s, Decimal(i), [c]);
    AheadChar(f, s + |Decimal(i)|, [c], 0);
    assert f[s..s + |Decimal(i)|] == f[s..][..|Decimal(i)|];
    NumberReadsBack(f, s, i);
  }

  /** No index and no name: the next argument, unless an index or a name has been used. */
  lemma NextArgument(f: CString, s: nat, args: seq<Argument>, b: Base)
    requires s < |f| && (f[s] == '}' || f[s] == ':') && b.next >= -1
    ensures ArgAt(f, s, args, b)
         == if b.next < 0 then Stopped(ToAutomatic)
            else if b.next < |args| then Moved(args[b.next], s, Base(b.next + 1, b.got + [Got(Next, args[b.next])]))
            else Stopped(OutOfRange)
  {
  }

  /** A number beyond the largest int is too big, wherever one is read. */
  lemma BigNumber(f: CString, s: nat, i: nat, c: char)
    requires 2147483647 < i <= 4294967295 && !IsDigit(c) && Ahead(f, s, Decimal(i) + [c])
    ensures s < |f| && DigitAt(f, s) && NumberAt(f, s) == Fail(NumberTooBig)
  {
    DecimalIsDigits(i);
    VerdictUpToUintMax(Decimal(i));
    AheadChar(f, s, Decimal(i) + [c], 0);
    var n := |Decimal(i)|;
    assert f[s..] == Decimal(i) + ([c] + f[s..][n + 1..]);
    DigitRunIs(f[s..], Decimal(i), [c] + f[s..][n + 1..]);
    assert f[s..][..n] == Decimal(i);
  }

  predicate NameChar(c: char) {
    'a' <= c <= 'z' || 'A' <= c <= 'Z' || c == '_' || '0' <= c <= '9'
  }

  predicate IsName(t: string) {
    t != "" && !('0' <= t[0] <= '9') && forall i | 0 <= i < |t| :: NameChar(t[i])
  }

  lemma {:induction false} NameRun(f: CString, s: nat, t: string, c: char)
    requires Ahead(f, s, t + [c]) && (forall i | 0 <= i < |t| :: NameChar(t[i])) && !NameChar(c)
    ensures NameEnd(f, s) == s + |t|
    decreases |t|
  {
    AheadChar(f, s, t + [c], 0);
    if t != "" {
      assert t + [c] == [t[0]] + (t[1..] + [c]);
      AheadSplit(f, s, [t[0]], t[1..] + [c]);
      NameRun(f, s + 1, t[1..], c);
    }
  }

  lemma NameReads(f: CString, s: nat, t: string, c: char)
    requires IsName(t) && !NameChar(c) && Ahead(f, s, t + [c])
    ensures s < |f| && IsNameStart(CharAt(f, s)) && NameEnd(f, s + 1) == s + |t| && f[s..s + |t|] == t
  {
    AheadChar(f, s, t + [c], 0);
    NameRun(f, s, t, c);
    AheadSplit(f, s, t, [c]);
    assert f[s..s + |t|] == f[s..][..|t|];
  }

  /** A name in a field, wherever it stands: the first argument of that name. */
  lemma NamedArgument(f: CString, s: nat, args: seq<Argument>, b: Base, t: string, c: char, k: nat)
    requires IsName(t) && !NameChar(c) && b.next >= -1 && Ahead(f, s, t + [c]) && k <= |args|
    requires forall j | 0 <= j < k :: args[j].name != Some(t)
    requires k < |args| ==> args[k].name == Some(t)
    ensures ArgAt(f, s, args, b)
         == if b.next > 0 then Stopped(ToManual)
            else if k < |args| then Moved(args[k], s + |t|, Base(-1, b.got + [Got(Name(t), args[k])]))
            else Stopped(NotFound)
  {
    NameReads(f, s, t, c);
  }

  lemma PlainEnd(f: CString, s: nat, args: seq<Argument>, b0: Base, a: Argument, p: nat, b: Base)
    requires s <= p < |f| && f[p] == '}' && b0.next >= -1 && b.next >= -1
    requires ArgAt(f, s, args, b0) == Moved(a, p, b) && ShowFault(a, PLAIN) == None
    ensures FieldAt(f, s, args, b0) == Moved(Field(|b0.got|, a, a, PLAIN), p + 1, b)
  {
    FieldIs(f, s, args, b0, a, p, b, Moved(PLAIN, p + 1, b));
  }

  lemma NothingNamed(f: CString, s: nat, args: seq<Argument>, b: Base, fault: Fault)
    requires s <= |f| && b.next >= -1 && ArgAt(f, s, args, b) == Stopped(fault)
    ensures FieldAt(f, s, args, b) == Stopped(fault)
  {
  }

  lemma FirstBrace(f: CString, t: string)
    requires f == "{" + (t + "}") && t != ""
    ensures |f| == |t| + 2 && f[0] == '{' && f[1] == t[0] && f[|t| + 1] == '}' && Ahead(f, 1, t + ['}'])
  {
    assert f[1..] == t + "}";
  }

  /** `{i}` alone shows argument `i`, or there is none. */
  lemma IndexedField(f: CString, args: seq<Argument>, i: nat)
    requires f == "{" + (Decimal(i) + "}") && i <= INT_MAX
    ensures i < |args| && ShowFault(args[i], PLAIN) == None ==>
      Format(f, args) == Done([Field(0, args[i], args[i], PLAIN)], Base(-1, [Got(Index(i), args[i])]))
    ensures i >= |args| ==> Format(f, args) == Failed(OutOfRange)
  {
    FirstBrace(f, Decimal(i));
    IndexedArgument(f, 1, args, Base(0, []), i, '}');
    DecimalIsDigits(i);
    if i >= |args| {
      NothingNamed(f, 1, args, Base(0, []), OutOfRange);
      FormatOneFault(f, args, OutOfRange);
    } else if ShowFault(args[i], PLAIN) == None {
      var b := Base(-1, [Got(Index(i), args[i])]);
      PlainEnd(f, 1, args, Base(0, []), args[i], 1 + |Decimal(i)|, b);
      FormatOneField(f, args, Field(0, args[i], args[i], PLAIN), b);
    }
  }

  /** `{name}` alone shows the first argument of that name, or there is none. */
  lemma NamedField(f: CString, args: seq<Argument>, t: string, k: nat)
    requires f == "{" + (t + "}") && IsName(t) && k <= |args|
    requires forall j | 0 <= j < k :: args[j].name != Some(t)
    requires k < |args| ==> args[k].name == Some(t)
    ensures k < |args| && ShowFault(args[k], PLAIN) == None ==>
      Format(f, args) == Done([Field(0, args[k], args[k], PLAIN)], Base(-1, [Got(Name(t), args[k])]))
    ensures k == |args| ==> Format(f, args) == Failed(NotFound)
  {
    FirstBrace(f, t);
    assert NameChar(t[0]);
    NamedArgument(f, 1, args, Base(0, []), t, '}', k);
    if k == |args| {
      NothingNamed(f, 1, args, Base(0, []), NotFound);
      FormatOneFault(f, args, NotFound);
    } else if ShowFault(args[k], PLAIN) == None {
      var b := Base(-1, [Got(Name(t), args[k])]);
      PlainEnd(f, 1, args, Base(0, []), args[k], 1 + |t|, b);
      FormatOneField(f, args, Field(0, args[k], args[k], PLAIN), b);
    }
  }

  // ---- what can be shown ---------------------------------------------------------------------------

  /** The types each kind of argument can be shown as. */
  lemma ShownAs(a: Argument, spec: Spec)
    ensures a.kind in {KindInt, KindUInt, KindLongLong, KindULongLong, KindBool} ==>
      (ShowFault(a, spec) == None <==> spec.kind in {'\0', 'd', 'n', 'x', 'X', 'o', 'b', 'B'})
    ensures a.kind == KindChar ==>
      (ShowFault(a, spec) == None <==>
        spec.kind in {'d', 'n', 'x', 'X', 'o', 'b', 'B'}
        || (spec.kind in {'\0', 'c'} && spec.align != AlignNumeric
            && !spec.sign && !spec.plus && !spec.minus && !spec.hash))
    ensures a.kind in {KindDouble, KindLongDouble} ==>
      (ShowFault(a, spec) == None <==> spec.kind in {'\0', 'e', 'E', 'f', 'F', 'g', 'G', 'a', 'A'})
    ensures a.kind == KindCString ==>
      (ShowFault(a, spec) == None <==> spec.kind == 'p' || (spec.kind in {'\0', 's'} && a.number != 0))
    ensures a.kind == KindString ==> (ShowFault(a, spec) == None <==> spec.kind in {'\0', 's'} && a.number != 0)
    ensures a.kind == KindPointer ==> (ShowFault(a, spec) == None <==> spec.kind in {'\0', 'p'})
  {
  }

  predicate Number(kind: Kind) {
    kind in {KindInt, KindUInt, KindLongLong, KindULongLong, KindBool, KindChar, KindDouble, KindLongDouble}
  }

  /** What a specification may ask of which arguments. */
  lemma SuitsIff(a: Argument, spec: Spec)
    ensures SpecFault(spec, a) == None <==>
      && (spec.align == AlignNumeric || spec.hash ==> Number(a.kind))
      && (spec.sign || spec.minus ==> Number(a.kind) && a.kind != KindUInt && a.kind != KindULongLong)
      && (spec.precision >= 0 ==> a.kind in {KindDouble, KindLongDouble, KindCString, KindString})
  {
  }

  /** A brace cannot be a fill. */
  lemma BraceAsFill(f: CString, s: nat, a: Argument)
    requires s + 1 < |f| && f[s] == '{' && f[s + 1] in {'<', '>', '=', '^'}
    ensures FlagsAt(f, s, a) == Fail(InvalidFill)
  {
  }

  // ---- braces that do not match --------------------------------------------------------------------

  /** A closing brace on its own is one too many. */
  lemma LoneClosingBrace(f: CString, args: seq<Argument>)
    requires |f| >= 1 && f[0] == '}' && (|f| > 1 ==> f[1] != '}')
    ensures Format(f, args) == Failed(UnmatchedBrace)
  {
    FieldRead(f, args, 0, Base(0, []));
  }

  /** A field that is not closed behind its argument is missing its brace. */
  lemma UnclosedField(f: CString, s: nat, args: seq<Argument>, b0: Base, a: Argument, p: nat, b: Base)
    requires s <= p <= |f| && b0.next >= -1 && b.next >= -1 && ArgAt(f, s, args, b0) == Moved(a, p, b)
    requires p < |f| ==> f[p] != ':' && f[p] != '}'
    ensures FieldAt(f, s, args, b0) == Stopped(MissingBrace)
  {
  }

  /** An opening brace alone. */
  lemma LoneOpeningBrace(args: seq<Argument>)
    ensures Format("{", args) == Failed(if args == [] then InvalidFormat else MissingBrace)
  {
    var f: CString := "{";
    if args == [] {
      NothingNamed(f, 1, args, Base(0, []), InvalidFormat);
    } else {
      UnclosedField(f, 1, args, Base(0, []), args[0], 1, Base(1, [Got(Next, args[0])]));
    }
    FieldRead(f, args, 0, Base(0, []));
  }

  // ---- strings, bools, characters, pointers --------------------------------------------------------

  /** Strings lean to the left unless they are told otherwise. */
  function StringAlign(align: Alignment): Alignment {
    if align == AlignRight then AlignRight else if align == AlignCenter then AlignCenter else AlignLeft
  }

  lemma SideLaid(text: string, spec: Spec, a: string)
    requires |text| < spec.width && AllOf(a, spec.fill, spec.width - |text|)
    ensures LaidOut(a + text + "", "", text, spec.width, spec.fill, AlignRight)
    ensures LaidOut("" + text + a, "", text, spec.width, spec.fill, AlignLeft)
  {
    LeftLaid("", text, spec.width, spec.fill, a);
    assert "" + text == text && a + text + "" == a + text;
  }

  lemma MiddleLaid(text: string, spec: Spec, a: string, b: string)
    requires |text| + |a| + |b| == spec.width && |a| <= |b| <= |a| + 1 && |b| > 0
    requires AllOf(a, spec.fill, |a|) && AllOf(b, spec.fill, |b|)
    ensures LaidOut(a + text + b, "", text, spec.width, spec.fill, AlignCenter)
  {
    CentreLaid("", text, spec.width, spec.fill, a, b);
    assert "" + text == text;
  }

  lemma FullString(text: string, spec: Spec)
    requires |text| >= spec.width
    ensures LaidOut(StrText(text, spec), "", text, spec.width, spec.fill, StringAlign(spec.align))
  {
    assert "" + text + "" == "" + text;
  }

  lemma MiddleString(text: string, spec: Spec, pad: nat)
    requires |text| + pad == spec.width && pad > 0 && spec.align == AlignCenter
    ensures LaidOut(StrText(text, spec), "", text, spec.width, spec.fill, AlignCenter)
  {
    var a, b := Repeat(spec.fill, pad / 2), Repeat(spec.fill, pad - pad / 2);
    MiddleLaid(text, spec, a, b);
    assert StrText(text, spec) == a + text + b;
  }

  lemma SideString(text: string, spec: Spec, pad: nat)
    requires |text| + pad == spec.width && pad > 0 && spec.align != AlignCenter
    ensures LaidOut(StrText(text, spec), "", text, spec.width, spec.fill, StringAlign(spec.align))
  {
    var a := Repeat(spec.fill, pad);
    SideLaid(text, spec, a);
    assert StrText(text, spec) == if spec.align == AlignRight then a + text + "" else "" + text + a;
  }

  /** A string in its field. */
  lemma StringLaidOut(text: string, spec: Spec)
    ensures LaidOut(StrText(text, spec), "", text, spec.width, spec.fill, StringAlign(spec.align))
  {
    if |text| >= spec.width {
      FullString(text, spec);
    } else if spec.align == AlignCenter {
      MiddleString(text, spec, spec.width - |text|);
    } else {
      SideString(text, spec, spec.width - |text|);
    }
  }

  /** The front of a text. */
  function Front(t: string, n: int): string {
    if 0 <= n <= |t| then t[..n] else t
  }

  lemma OnePiece(a: Argument, spec: Spec, r: Space, sep: string, doubles: Shower)
    ensures var parts := PiecesParts([Field(0, a, a, spec)], Brace, doubles);
      && (InPlace(r, parts, sep) <==> PartStays(r, ShowPart(a, spec, doubles), sep))
      && PartsText(parts, sep) == PartText(ShowPart(a, spec, doubles), sep)
  {
    OneFieldParts(Field(0, a, a, spec), Brace, doubles);
    OnePart(r, ShowPart(a, spec, doubles), sep);
  }

  /** A string that is not null is written out, as far as the precision goes, in its field. */
  lemma BracedString(f: CString, a: Argument, spec: Spec, r: Space, sep: string, doubles: Shower)
    requires a.kind == KindString || a.kind == KindCString
    requires a.number != 0 && (spec.kind == '\0' || spec.kind == 's')
    requires Writable(spec) && SpecFault(spec, a) == None && f == FieldString(spec)
    ensures Format(f, [a]) == Done([Field(0, a, a, spec)], Base(1, [Got(Next, a)]))
    ensures var parts := PiecesParts([Field(0, a, a, spec)], Brace, doubles);
      InPlace(r, parts, sep) && PartsText(parts, sep) == StrText(Front(a.text, spec.precision), spec)
  {
    StringShown(a, spec, doubles);
    BracedField(f, a, spec);
    OnePiece(a, spec, r, sep, doubles);
  }

  lemma StringShown(a: Argument, spec: Spec, doubles: Shower)
    requires a.kind == KindString || a.kind == KindCString
    requires a.number != 0 && (spec.kind == '\0' || spec.kind == 's')
    ensures ShowFault(a, spec) == None
    ensures ShowPart(a, spec, doubles) == AsText(StrText(Front(a.text, spec.precision), spec))
  {
    assert Cut(a.text, spec.precision) == Front(a.text, spec.precision);
  }

  /** A bool is a word, and a character itself, unless a type for numbers is asked for. */
  lemma BracedWord(f: CString, a: Argument, spec: Spec, r: Space, sep: string, doubles: Shower)
    requires a.kind == KindBool || (a.kind == KindChar && InRange(a) && spec.align != AlignNumeric)
    requires spec.kind == '\0' && Writable(spec) && SpecFault(spec, a) == None && f == FieldString(spec)
    requires a.kind == KindChar ==> !spec.sign && !spec.plus && !spec.minus && !spec.hash
    ensures Format(f, [a]) == Done([Field(0, a, a, spec)], Base(1, [Got(Next, a)]))
    ensures var parts := PiecesParts([Field(0, a, a, spec)], Brace, doubles);
      InPlace(r, parts, sep) && PartsText(parts, sep) == StrText(Word(a), spec)
  {
    WordShown(a, spec, doubles);
    BracedField(f, a, spec);
    OnePiece(a, spec, r, sep, doubles);
  }

  function Word(a: Argument): string
    requires a.kind == KindChar ==> -128 <= a.number < 128
  {
    if a.kind == KindChar then [if a.number < 0 then (a.number + 256) as char else a.number as char]
    else if a.number == 0 then "false" else "true"
  }

  lemma WordShown(a: Argument, spec: Spec, doubles: Shower)
    requires a.kind == KindBool || (a.kind == KindChar && InRange(a) && spec.align != AlignNumeric)
    requires spec.kind == '\0' && (a.kind == KindBool ==> spec.precision == -1)
    requires a.kind == KindChar ==> !spec.sign && !spec.plus && !spec.minus && !spec.hash
    ensures ShowFault(a, spec) == None && ShowPart(a, spec, doubles) == AsText(StrText(Word(a), spec))
  {
    if a.kind == KindChar {
      CharIs(a.number);
    }
  }

  lemma CharIs(n: int)
    requires -128 <= n < 128
    ensures CharOf(n) == if n < 0 then (n + 256) as char else n as char
  {
  }

  /** Under a type for numbers, bools and characters are numbers. */
  lemma BracedAsNumber(f: CString, a: Argument, spec: Spec, r: Space, sep: string, doubles: Shower)
    requires (a.kind == KindBool || a.kind == KindChar) && spec.kind in {'d', 'n', 'x', 'X', 'o', 'b', 'B'}
    requires Writable(spec) && SpecFault(spec, a) == None && f == FieldString(spec)
    ensures Format(f, [a]) == Done([Field(0, a, a, spec)], Base(1, [Got(Next, a)]))
    ensures var parts := PiecesParts([Field(0, a, a, spec)], Brace, doubles);
      InPlace(r, parts, sep) && PartsText(parts, sep) == IntText(a.number, spec, sep)
  {
    NumberShown(a, spec, r, sep, doubles);
    BracedField(f, a, spec);
    OnePiece(a, spec, r, sep, doubles);
  }

  lemma NumberShown(a: Argument, spec: Spec, r: Space, sep: string, doubles: Shower)
    requires (a.kind == KindBool || a.kind == KindChar) && spec.kind in {'d', 'n', 'x', 'X', 'o', 'b', 'B'}
    requires SpecFault(spec, a) == None && spec.precision >= -1
    ensures var part := ShowPart(a, spec, doubles);
      && ShowFault(a, spec) == None && PartStays(r, part, sep) && PartText(part, sep) == IntText(a.number, spec, sep)
  {
  }

  /** A pointer is its address in hexadecimal behind `0x`. */
  lemma PointerText(n: nat, spec: Spec, sep: string)
    requires spec.precision < 0
    ensures var digits := DigitText(n, 'x', sep);
      && Writes(digits, n, 16, false)
      && LaidOut(IntText(n, PointerSpec(spec), sep), "0x", digits, spec.width, spec.fill, spec.align)
  {
    DigitsByType(n, sep);
    SignIs(n, PointerSpec(spec));
    BaseIs(PointerSpec(spec));
    assert "" + "0x" == "0x";
    IntegerLaidOut(n, PointerSpec(spec), sep);
  }

  lemma BracedPointer(f: CString, a: Argument, spec: Spec, r: Space, sep: string, doubles: Shower)
    requires (a.kind == KindPointer && (spec.kind == '\0' || spec.kind == 'p')) || (a.kind == KindCString && spec.kind == 'p')
    requires a.number >= 0 && spec.precision == -1
    requires Writable(spec) && SpecFault(spec, a) == None && f == FieldString(spec)
    ensures Format(f, [a]) == Done([Field(0, a, a, spec)], Base(1, [Got(Next, a)]))
    ensures var parts := PiecesParts([Field(0, a, a, spec)], Brace, doubles);
      InPlace(r, parts, sep) && PartsText(parts, sep) == IntText(a.number, PointerSpec(spec), sep)
  {
    PointerShown(a, spec, r, sep, doubles);
    BracedField(f, a, spec);
    OnePiece(a, spec, r, sep, doubles);
  }

  lemma PointerShown(a: Argument, spec: Spec, r: Space, sep: string, doubles: Shower)
    requires (a.kind == KindPointer && (spec.kind == '\0' || spec.kind == 'p')) || (a.kind == KindCString && spec.kind == 'p')
    requires spec.precision == -1
    ensures var part := ShowPart(a, spec, doubles);
      && ShowFault(a, spec) == None && PartStays(r, part, sep)
      && PartText(part, sep) == IntText(a.number, PointerSpec(spec), sep)
  {
  }

  // ---- widths and precisions from arguments --------------------------------------------------------

  /** A nested width is the value of the next argument, which must be a number that is one. */
  lemma NestedWidth(f: CString, s: nat, args: seq<Argument>, b: Base, spec: Spec, w: Argument)
    requires s + 1 < |f| && f[s] == '{' && f[s + 1] == '}' && 0 <= b.next < |args| && args[b.next] == w
    ensures var c := Base(b.next + 1, b.got + [Got(Next, w)]);
      WidthAt(f, s, args, b, spec)
      == if w.kind !in {KindInt, KindUInt, KindLongLong, KindULongLong} then Stopped(WidthNotInteger)
         else if w.number < 0 then Stopped(NegativeWidth)
         else if w.number > 2147483647 then Stopped(NumberTooBig)
         else Moved(spec.(width := w.number), s + 2, c)
  {
    assert ArgAt(f, s + 1, args, b) == Moved(w, s + 1, Base(b.next + 1, b.got + [Got(Next, w)]));
  }

  /** A nested precision likewise, for an argument that takes one. */
  lemma NestedPrecision(f: CString, s: nat, a: Argument, args: seq<Argument>, b: Base, spec: Spec, p: Argument)
    requires s + 2 < |f| && f[s] == '.' && f[s + 1] == '{' && f[s + 2] == '}' && 0 <= b.next < |args| && args[b.next] == p
    ensures var c := Base(b.next + 1, b.got + [Got(Next, p)]);
      PrecisionAt(f, s, a, args, b, spec)
      == if p.kind !in {KindInt, KindUInt, KindLongLong, KindULongLong} then Stopped(PrecisionNotInteger)
         else if p.number < 0 then Stopped(NegativePrecision)
         else if p.number > 2147483647 then Stopped(NumberTooBig)
         else if a.kind in {KindInt, KindUInt, KindLongLong, KindULongLong, KindBool, KindChar, KindPointer}
           then Stopped(PrecisionNotAllowed)
         else Moved(spec.(precision := p.number), s + 3, c)
  {
    assert ArgAt(f, s + 2, args, b) == Moved(p, s + 2, Base(b.next + 1, b.got + [Got(Next, p)]));
  }

  /** A dot wants a number behind it. */
  lemma DotAlone(f: CString, s: nat, a: Argument, args: seq<Argument>, b: Base, spec: Spec)
    requires s < |f| && b.next >= -1 && f[s] == '.' && CharAt(f, s + 1) != '{' && !('0' <= CharAt(f, s + 1) <= '9')
    ensures PrecisionAt(f, s, a, args, b, spec) == Stopped(MissingPrecision)
  {
  }
}
