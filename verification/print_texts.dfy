/** What printf conversions write, from the format string to the text. */
module PrintTexts {
  import opened Options
  import Arithmetic
  import opened Numerals
  import opened CountDigits
  import opened ArgLists
  import opened FormatIntegers
  import opened WriteIntegers
  import opened IntegerTexts
  import opened Buffers
  import opened Parts
  import opened FormatterBases
  import opened Rendering
  import opened OutputPieces
  import opened PrintfFormatters
  import opened PrintfRuns
  import opened PrintfSpecs
  import opened CharConversions
  import opened FormatSpecs
  import FormatTexts
  import FieldTexts

  /** A run that shows one argument writes this text, wherever the buffer is. */
  ghost predicate Prints(f: CString, args: seq<Argument>, a: Argument, c: Base, text: string, r: Space, sep: string,
                         doubles: Shower) {
    var o := Print(f, args);
    && o.Done? && |o.pieces| == 1 && o.pieces[0].Field? && o.pieces[0].arg == a && o.base == c
    && var parts := FormatTexts.PiecesParts(o.pieces, FormatTexts.Printf, doubles);
       InPlace(r, parts, sep) && PartsText(parts, sep) == text
  }

  /** A field that is one part, and not an integer that can move. */
  lemma PrintsField(f: CString, args: seq<Argument>, field: Piece, c: Base, part: Part, text: string, r: Space, sep: string,
                    doubles: Shower)
    requires Print(f, args) == Done([field], c) && field.Field?
    requires PrintfParts(field.shown, field.spec, doubles) == [part] && !CanMove(part) && PartText(part, sep) == text
    ensures Prints(f, args, field.arg, c, text, r, sep, doubles)
  {
    FormatTexts.OneFieldParts(field, FormatTexts.Printf, doubles);
    OnePart(r, part, sep);
    NothingMoves(r, [part], sep);
  }

  // ---- %s ------------------------------------------------------------------------------------------

  /** What `%s` makes of an argument. */
  function AsString(a: Argument, doubles: Shower): string
    requires InRange(a)
  {
    match a.kind
    case KindCString => if a.number == 0 then "(null)" else a.text
    case KindString => a.text
    case KindBool => FieldTexts.Word(a)
    case KindChar => FieldTexts.Word(a)
    case KindPointer => if a.number == 0 then "(nil)" else "0x" + DigitText(a.number, 'x', "")
    case KindDouble => doubles(a, RIGHT_ALIGNED.(kind := 'g'))
    case KindLongDouble => doubles(a, RIGHT_ALIGNED.(kind := 'g'))
    case _ => SignedDecimal(a.number)
  }

  lemma NumberAsString(a: Argument)
    requires InRange(a) && a.kind in {KindInt, KindUInt, KindLongLong, KindULongLong}
    ensures Converted(a, Own, 's') == a
  {
    OwnWidthStays(a);
  }

  lemma StringKinds(a: Argument)
    requires InRange(a)
    ensures Normalized(Converted(a, Own, 's'), RIGHT_ALIGNED, 's') == (a, StringSpec(a))
  {
    if a.kind == KindChar {
      ByteStays(a.number);
    } else if a.kind in {KindInt, KindUInt, KindLongLong, KindULongLong} {
      NumberAsString(a);
    }
  }

  lemma ByteStays(n: int)
    requires -128 <= n < 128
    ensures WrapSigned(n, 8) == n
  {
    FormatTexts.Moduli();
    WrapStays(n, 8, 256);
  }

  /** A number fits its own type. */
  lemma OwnWidthStays(a: Argument)
    requires InRange(a) && a.kind in {KindInt, KindUInt, KindLongLong, KindULongLong}
    ensures a.kind in {KindInt, KindLongLong} ==> WrapSigned(a.number, KindBits(a.kind)) == a.number
    ensures a.kind in {KindUInt, KindULongLong} ==> WrapUnsigned(a.number, KindBits(a.kind)) == a.number
  {
    FormatTexts.Moduli();
    var m := Modulus(KindBits(a.kind));
    if a.kind in {KindInt, KindLongLong} {
      WrapStays(a.number, KindBits(a.kind), m);
    } else {
      Arithmetic.QuotientUnique(a.number, m, 0, a.number);
    }
  }

  /** The specification `%s` ends up with. */
  function StringSpec(a: Argument): Spec {
    RIGHT_ALIGNED.(kind := if a.kind == KindChar then 'c' else if a.kind == KindPointer then 'p'
                           else if a.kind in {KindDouble, KindLongDouble} then 'g'
                           else if IsInteger(a) && a.kind != KindBool then 'd' else 's')
  }

  lemma StringShows(a: Argument, doubles: Shower, sep: string) returns (part: Part)
    requires InRange(a) && (a.kind == KindString ==> a.number != 0)
    ensures PrintfFault(a, StringSpec(a)) == None && PrintfParts(a, StringSpec(a), doubles) == [part]
    ensures !CanMove(part) && PartText(part, sep) == AsString(a, doubles)
  {
    part := PrintfParts(a, StringSpec(a), doubles)[0];
    var spec := StringSpec(a);
    match a.kind
    case KindChar => FieldTexts.CharIs(a.number);
    case KindPointer =>
      if a.number != 0 {
        PointerBare(a.number, spec, sep);
      }
    case KindDouble =>
    case KindLongDouble =>
    case KindCString =>
    case KindString =>
    case KindBool =>
    case _ => BareNumberShows(a, doubles, sep);
  }

  lemma BareNumberShows(a: Argument, doubles: Shower, sep: string)
    requires InRange(a) && a.kind in {KindInt, KindUInt, KindLongLong, KindULongLong}
    ensures PrintfFault(a, StringSpec(a)) == None && |PrintfParts(a, StringSpec(a), doubles)| == 1
    ensures var part := PrintfParts(a, StringSpec(a), doubles)[0]; !CanMove(part) && PartText(part, sep) == AsString(a, doubles)
  {
    DecimalBare(a.number, StringSpec(a), sep);
  }

  /** Without width, precision and flags a decimal is the number itself. */
  lemma DecimalBare(n: int, spec: Spec, sep: string)
    requires spec.width == 0 && spec.precision < 0 && !spec.sign && (spec.kind == 'd' || spec.kind == '\0')
    ensures IntText(n, spec, sep) == SignedDecimal(n)
  {
    SignIs(n, spec);
    BaseIs(spec);
    IntegerLaidOut(n, spec, sep);
    DecimalDigits(Magnitude(n), spec.kind, sep);
    assert SignPrefix(n, spec) + "" == SignPrefix(n, spec);
  }

  lemma DecimalDigits(n: nat, kind: char, sep: string)
    requires kind == 'd' || kind == '\0'
    ensures DigitText(n, kind, sep) == Decimal(n) && "" + Decimal(n) == Decimal(n)
  {
    assert BaseOf(kind) == 10;
    SameNumeral(n, BaseOf(kind));
  }

  lemma SameNumeral(n: nat, base: nat)
    requires base == 10
    ensures Numeral(n, base, false) == Decimal(n)
  {
  }

  lemma PointerBare(n: nat, spec: Spec, sep: string)
    requires spec.width == 0 && spec.precision < 0
    ensures IntText(n, PointerSpec(spec), sep) == "0x" + DigitText(n, 'x', "")
  {
    SignIs(n, PointerSpec(spec));
    BaseIs(PointerSpec(spec));
    IntegerLaidOut(n, PointerSpec(spec), sep);
    assert "" + "0x" == "0x";
  }

  lemma StringTail(f: CString, s: nat, a: Argument, b: Base)
    requires s + 1 == |f| && f[s] == 's' && InRange(a) && b.next >= -1 && PrintfFault(a, StringSpec(a)) == None
    ensures TailAt(f, s, 0, a, RIGHT_ALIGNED, b) == Moved(Field(0, a, a, StringSpec(a)), |f|, b)
  {
    StringKinds(a);
    TailIs(f, s, 0, a, RIGHT_ALIGNED, b, Own, s, 's', RIGHT_ALIGNED, Converted(a, Own, 's'), a, StringSpec(a));
  }

  /** `%s` shows every argument: a string as it is, a null C string as `(null)`, a number in decimal ... */
  lemma PercentS(f: CString, a: Argument, more: seq<Argument>, r: Space, sep: string, doubles: Shower)
    requires f == "%s" && InRange(a) && (a.kind == KindString ==> a.number != 0)
    ensures Prints(f, [a] + more, a, Base(1, [Got(Next, a)]), AsString(a, doubles), r, sep, doubles)
  {
    var b, field := Base(1, [Got(Next, a)]), Field(0, a, a, StringSpec(a));
    var part := StringShows(a, doubles, sep);
    StringTail(f, 1, a, b);
    BareConversion(f, a, more, Moved(field, 2, b));
    PrintOneField(f, [a] + more, field, b);
    PrintsField(f, [a] + more, field, b, part, AsString(a, doubles), r, sep, doubles);
  }

  // ---- length modifiers ----------------------------------------------------------------------------

  predicate Modifier(mods: string) {
    mods in {"", "hh", "h", "l", "ll", "j", "z", "t"}
  }

  /** The bits a conversion leaves of a number. */
  function BitsLeft(mods: string, kind: Kind, signed: bool): nat
    requires Modifier(mods)
  {
    var own := if kind == KindChar then 8 else if kind == KindInt || kind == KindUInt then 32 else 64;
    if mods == "hh" then 8
    else if mods == "h" then 16
    else if mods == "" then own
    else if signed then 64 else own
  }

  function TwoToThe(bits: nat): int {
    match bits
    case 8 => 256
    case 16 => 65536
    case 32 => 4294967296
    case _ => 18446744073709551616
  }

  function TargetOf(mods: string): Target
    requires Modifier(mods)
  {
    if mods == "" then Own else if mods == "hh" then SignedChar else if mods == "h" then Short else Long
  }

  lemma ModifierReads(f: CString, mods: string, t: char)
    requires Modifier(mods) && NumberType(t) && f == "%" + (mods + [t])
    ensures |f| == |mods| + 2 && f[0] == '%' && f[1] != '%' && ('a' <= f[1] <= 'z' || 'A' <= f[1] <= 'Z')
    ensures Length(f, 1) == (Some(TargetOf(mods)), 1 + |mods|) && f[1 + |mods|] == t
  {
    assert f[1..] == mods + [t];
    if |mods| == 2 {
      assert f[1] == mods[0] && f[2] == mods[1];
    } else if |mods| == 1 {
      assert f[1] == mods[0] && f[2] == t;
    } else {
      assert f[1] == t;
    }
  }

  /** What remains of the number: the one of its width that differs by a multiple. */
  ghost predicate Remains(n: int, m: int, bits: nat, signed: bool) {
    && (if signed then -TwoToThe(bits) <= 2 * m < TwoToThe(bits) else 0 <= m < TwoToThe(bits))
    && exists k: int :: m == n + k * TwoToThe(bits)
  }

  lemma WidthsAgree(a: Argument, mods: string, t: char)
    requires PlainNumber(a) && Modifier(mods) && (NumberType(t) || t == 'c')
    ensures var signed := t == 'd' || t == 'i';
      && ConversionBits(a.kind, TargetOf(mods), signed) == BitsLeft(mods, a.kind, signed)
      && BitsLeft(mods, a.kind, signed) in {8, 16, 32, 64}
      && WantsSigned(a.kind, t) == signed
  {
  }

  lemma ModulusIs(bits: nat)
    requires bits in {8, 16, 32, 64}
    ensures Modulus(bits) == TwoToThe(bits)
  {
    FormatTexts.Moduli();
  }

  predicate PlainNumber(a: Argument) {
    a.kind in {KindInt, KindUInt, KindLongLong, KindULongLong, KindChar}
  }

  lemma NumberRemains(a: Argument, mods: string, t: char)
    requires PlainNumber(a) && Modifier(mods) && (NumberType(t) || t == 'c')
    ensures var signed := t == 'd' || t == 'i'; var shown := Converted(a, TargetOf(mods), t);
      && Remains(a.number, shown.number, BitsLeft(mods, a.kind, signed), signed)
      && shown.kind in {KindInt, KindUInt, KindLongLong, KindULongLong}
  {
    WidthsAgree(a, mods, t);
    ModulusIs(BitsLeft(mods, a.kind, t == 'd' || t == 'i'));
    ConversionMeaning(a, TargetOf(mods), t);
  }

  lemma NumberShows(shown: Argument, t: char, sep: string, doubles: Shower) returns (part: Part)
    requires shown.kind in {KindInt, KindUInt, KindLongLong, KindULongLong} && NumberType(t)
    ensures var spec := RIGHT_ALIGNED.(kind := FinalType(t));
      && PrintfFault(shown, spec) == None && PrintfParts(shown, spec, doubles) == [part]
      && !CanMove(part) && PartText(part, sep) == NumberText(shown.number, t, sep)
  {
    var spec := RIGHT_ALIGNED.(kind := FinalType(t));
    part := PrintfParts(shown, spec, doubles)[0];
    NumberBare(shown.number, t, sep);
  }

  /** A number without width, precision and flags, in the base the type letter asks for. */
  function NumberText(n: int, t: char, sep: string): string
    requires NumberType(t)
  {
    (if n < 0 then "-" else "")
    + DigitText(if n < 0 then -n else n, if t == 'i' || t == 'u' then 'd' else t, sep)
  }

  lemma NumberBare(n: int, t: char, sep: string)
    requires NumberType(t)
    ensures IntText(n, RIGHT_ALIGNED.(kind := FinalType(t)), sep) == NumberText(n, t, sep)
  {
    var spec := RIGHT_ALIGNED.(kind := FinalType(t));
    SignIs(n, spec);
    BaseIs(spec);
    IntegerLaidOut(n, spec, sep);
    assert SignPrefix(n, spec) + "" == SignPrefix(n, spec);
  }

  lemma NumberTail(f: CString, mods: string, t: char, a: Argument, b: Base)
    requires Modifier(mods) && NumberType(t) && f == "%" + (mods + [t]) && PlainNumber(a) && b.next >= -1
    ensures var shown := Converted(a, TargetOf(mods), t);
      TailAt(f, 1, 0, a, RIGHT_ALIGNED, b) == Moved(Field(0, a, shown, RIGHT_ALIGNED.(kind := FinalType(t))), |f|, b)
  {
    var shown, final := Converted(a, TargetOf(mods), t), RIGHT_ALIGNED.(kind := FinalType(t));
    ModifierReads(f, mods, t);
    NumberNormal(a, mods, t);
    TailIs(f, 1, 0, a, RIGHT_ALIGNED, b, TargetOf(mods), 1 + |mods|, t, RIGHT_ALIGNED, shown, shown, final);
  }

  lemma NumberNormal(a: Argument, mods: string, t: char)
    requires Modifier(mods) && NumberType(t) && PlainNumber(a)
    ensures var shown, final := Converted(a, TargetOf(mods), t), RIGHT_ALIGNED.(kind := FinalType(t));
      && Adjusted(RIGHT_ALIGNED, a) == RIGHT_ALIGNED
      && Normalized(shown, RIGHT_ALIGNED, t) == (shown, final) && PrintfFault(shown, final) == None
  {
    NumberRemains(a, mods, t);
    PlainNormal(Converted(a, TargetOf(mods), t), t);
  }

  lemma PlainNormal(n: Argument, t: char)
    requires n.kind in {KindInt, KindUInt, KindLongLong, KindULongLong} && NumberType(t)
    ensures var final := RIGHT_ALIGNED.(kind := FinalType(t));
      Normalized(n, RIGHT_ALIGNED, t) == (n, final) && PrintfFault(n, final) == None
  {
  }

  /**
   * A number under a length modifier and a type letter: what remains of it in that many bits, signed for
   * `d` and `i` alone, written in the base of the letter.
   */
  lemma PercentNumber(f: CString, mods: string, t: char, a: Argument, more: seq<Argument>, r: Space, sep: string,
                      doubles: Shower) returns (m: int)
    requires Modifier(mods) && NumberType(t) && f == "%" + (mods + [t]) && PlainNumber(a)
    ensures Remains(a.number, m, BitsLeft(mods, a.kind, t == 'd' || t == 'i'), t == 'd' || t == 'i')
    ensures Prints(f, [a] + more, a, Base(1, [Got(Next, a)]), NumberText(m, t, sep), r, sep, doubles)
  {
    var shown, b := Converted(a, TargetOf(mods), t), Base(1, [Got(Next, a)]);
    var field := Field(0, a, shown, RIGHT_ALIGNED.(kind := FinalType(t)));
    m := shown.number;
    NumberRemains(a, mods, t);
    var part := NumberShows(shown, t, sep, doubles);
    ModifierReads(f, mods, t);
    NumberTail(f, mods, t, a, b);
    BareConversion(f, a, more, Moved(field, |f|, b));
    PrintOneField(f, [a] + more, field, b);
    PrintsField(f, [a] + more, field, b, part, NumberText(m, t, sep), r, sep, doubles);
  }

  lemma BoolNormal(a: Argument, mods: string, t: char)
    requires Modifier(mods) && NumberType(t) && a.kind == KindBool && InRange(a)
    ensures var shown, final := Converted(a, TargetOf(mods), t), RIGHT_ALIGNED.(kind := FinalType(t));
      && Adjusted(RIGHT_ALIGNED, a) == RIGHT_ALIGNED && shown.number == a.number
      && shown.kind in {KindInt, KindUInt, KindLongLong, KindULongLong}
      && Normalized(shown, RIGHT_ALIGNED, t) == (shown, final) && PrintfFault(shown, final) == None
  {
    BoolConverted(a, TargetOf(mods), t);
    PlainNormal(Converted(a, TargetOf(mods), t), t);
  }

  lemma LongStays(n: int)
    requires 0 <= n <= 1
    ensures WrapSigned(n, 64) == n
  {
    ModulusIs(64);
    WrapStays(n, 64, 18446744073709551616);
  }

  lemma BoolConverted(a: Argument, target: Target, t: char)
    requires a.kind == KindBool && InRange(a) && t != 's'
    ensures var shown := Converted(a, target, t);
      shown.number == a.number && shown.kind in {KindInt, KindUInt, KindLongLong, KindULongLong}
  {
    LongStays(a.number);
  }

  /** A bool under a type for numbers is zero or one, whatever the modifier. */
  lemma PercentBool(f: CString, mods: string, t: char, a: Argument, more: seq<Argument>, r: Space, sep: string,
                    doubles: Shower)
    requires Modifier(mods) && NumberType(t) && f == "%" + (mods + [t]) && a.kind == KindBool && InRange(a)
    ensures Prints(f, [a] + more, a, Base(1, [Got(Next, a)]), NumberText(a.number, t, sep), r, sep, doubles)
  {
    var shown, b := Converted(a, TargetOf(mods), t), Base(1, [Got(Next, a)]);
    var field := Field(0, a, shown, RIGHT_ALIGNED.(kind := FinalType(t)));
    BoolNormal(a, mods, t);
    var part := NumberShows(shown, t, sep, doubles);
    ModifierReads(f, mods, t);
    TailIs(f, 1, 0, a, RIGHT_ALIGNED, b, TargetOf(mods), 1 + |mods|, t, RIGHT_ALIGNED, shown, shown, field.spec);
    BareConversion(f, a, more, Moved(field, |f|, b));
    PrintOneField(f, [a] + more, field, b);
    PrintsField(f, [a] + more, field, b, part, NumberText(a.number, t, sep), r, sep, doubles);
  }

  // ---- arguments by index --------------------------------------------------------------------------

  lemma IndexedText(f: CString, i: nat)
    requires f == "%" + (Decimal(i) + "$s")
    ensures |f| == |Decimal(i)| + 3 && f[0] == '%' && f[1] != '%' && f[|f| - 1] == 's'
    ensures Ahead(f, 1, ConversionText(Some(i), "", RIGHT_ALIGNED, 's'))
    ensures |ConversionText(Some(i), "", RIGHT_ALIGNED, 's')| == |f| - 1
  {
    DecimalIsDigits(i);
    assert f[1] == Decimal(i)[0];
    assert "" + ("" + ("" + ['s'])) == "s";
    assert (Decimal(i) + "$") + "s" == Decimal(i) + "$s" == f[1..];
  }

  /** An indexed fetch, in a fresh run: indices count from one. */
  lemma FetchByIndex(f: CString, s: nat, args: seq<Argument>, i: nat)
    requires s < |f| && i <= INT_MAX && |args| < TWO_TO_32 - 1
    ensures FetchAt(f, s, args, Base(0, []), i)
         == if 1 <= i <= |args| then Moved(args[i - 1], s, Base(-1, [Got(Index(i - 1), args[i - 1])])) else Stopped(OutOfRange)
  {
  }

  lemma IndexedFrom(f: CString, args: seq<Argument>, i: nat, r: Traced<Piece>)
    requires f == "%" + (Decimal(i) + "$s") && i <= INT_MAX && |f| >= 3
    requires ArgumentAt(f, |f| - 1, args, Base(0, []), i, RIGHT_ALIGNED) == r
    ensures ConversionAt(f, 1, args, Base(0, [])) == r
  {
    IndexedText(f, i);
    NoFlagsAtAll();
    ConversionReadsBack(f, 1, args, Base(0, []), Some(i), "", RIGHT_ALIGNED, 's', RIGHT_ALIGNED, |f| - 1);
  }

  lemma NoFlagsAtAll()
    ensures WithFlags(RIGHT_ALIGNED, "") == RIGHT_ALIGNED
  {
  }

  lemma ArgumentIs(f: CString, s: nat, args: seq<Argument>, b0: Base, argIndex: nat, spec: Spec, a: Argument, b: Base,
                   from: nat, r: Traced<Piece>)
    requires s <= |f| && b0.next >= -1 && b.next >= -1 && FetchAt(f, s, args, b0, argIndex) == Moved(a, s, b)
    requires from == |b0.got| && TailAt(f, s, from, a, spec, b) == r
    ensures ArgumentAt(f, s, args, b0, argIndex, spec) == r
  {
  }

  lemma ArgumentMissing(f: CString, s: nat, args: seq<Argument>, b: Base, argIndex: nat, spec: Spec, fault: Fault)
    requires s <= |f| && b.next >= -1 && FetchAt(f, s, args, b, argIndex) == Stopped(fault)
    ensures ArgumentAt(f, s, args, b, argIndex, spec) == Stopped(fault)
  {
  }

  /** `%i$s` shows argument `i`, counting from one; there is no argument zero. */
  lemma PercentIndexed(f: CString, args: seq<Argument>, i: nat, r: Space, sep: string, doubles: Shower)
    requires f == "%" + (Decimal(i) + "$s") && i <= INT_MAX && |args| < TWO_TO_32 - 1
    ensures 1 <= i <= |args| && InRange(args[i - 1]) && (args[i - 1].kind == KindString ==> args[i - 1].number != 0) ==>
      Prints(f, args, args[i - 1], Base(-1, [Got(Index(i - 1), args[i - 1])]), AsString(args[i - 1], doubles), r, sep, doubles)
    ensures i == 0 || i > |args| ==> Print(f, args) == Failed(OutOfRange)
  {
    IndexedText(f, i);
    FetchByIndex(f, |f| - 1, args, i);
    if i == 0 || i > |args| {
      ArgumentMissing(f, |f| - 1, args, Base(0, []), i, RIGHT_ALIGNED, OutOfRange);
      IndexedFrom(f, args, i, Stopped(OutOfRange));
      PrintOneFault(f, args, OutOfRange);
    } else if InRange(args[i - 1]) && (args[i - 1].kind == KindString ==> args[i - 1].number != 0) {
      IndexedShows(f, args, i, args[i - 1], r, sep, doubles);
    }
  }

  lemma IndexedEnds(f: CString, args: seq<Argument>, q: nat, i: nat, a: Argument, b: Base, r: Traced<Piece>)
    requires q <= |f| && b.next >= -1 && FetchAt(f, q, args, Base(0, []), i) == Moved(a, q, b)
    requires TailAt(f, q, 0, a, RIGHT_ALIGNED, b) == r
    ensures ArgumentAt(f, q, args, Base(0, []), i, RIGHT_ALIGNED) == r
  {
    ArgumentIs(f, q, args, Base(0, []), i, RIGHT_ALIGNED, a, b, 0, r);
  }

  lemma IndexedShows(f: CString, args: seq<Argument>, i: nat, a: Argument, r: Space, sep: string, doubles: Shower)
    requires f == "%" + (Decimal(i) + "$s") && 1 <= i <= INT_MAX && InRange(a) && (a.kind == KindString ==> a.number != 0)
    requires |f| >= 3 && FetchAt(f, |f| - 1, args, Base(0, []), i) == Moved(a, |f| - 1, Base(-1, [Got(Index(i - 1), a)]))
    ensures Prints(f, args, a, Base(-1, [Got(Index(i - 1), a)]), AsString(a, doubles), r, sep, doubles)
  {
    var b := Base(-1, [Got(Index(i - 1), a)]);
    var field := Field(0, a, a, StringSpec(a));
    var part := StringShows(a, doubles, sep);
    IndexedText(f, i);
    StringTail(f, |f| - 1, a, b);
    IndexedEnds(f, args, |f| - 1, i, a, b, Moved(field, |f|, b));
    IndexedFrom(f, args, i, Moved(field, |f|, b));
    PrintOneField(f, args, field, b);
    PrintsField(f, args, field, b, part, AsString(a, doubles), r, sep, doubles);
  }

  // ---- flags, width and precision ------------------------------------------------------------------

  lemma ConversionStart(f: CString, flags: string, spec: Spec, t: char)
    requires AllFlags(flags) && IsLetter(t) && f == "%" + ConversionText(None, flags, spec, t)
    ensures |f| >= 2 && f[0] == '%' && f[1] != '%' && f[|f| - 1] == t && Ahead(f, 1, ConversionText(None, flags, spec, t))
  {
    var text := ConversionText(None, flags, spec, t);
    assert f[1..] == text;
    DecimalIsDigits(spec.width);
    assert text == flags + (WidthText(spec) + (PrecisionText(spec) + [t]));
    assert f[1] == text[0];
  }

  lemma FirstArgument(f: CString, s: nat, a: Argument, more: seq<Argument>)
    requires s <= |f|
    ensures FetchAt(f, s, [a] + more, Base(0, []), NO_INDEX) == Moved(a, s, Base(1, [Got(Next, a)]))
  {
  }

  lemma FlaggedFrom(f: CString, flags: string, spec: Spec, t: char, args: seq<Argument>, shown: Spec, q: nat,
                    r: Traced<Piece>)
    requires AllFlags(flags) && IsLetter(t) && spec.width <= INT_MAX && -1 <= spec.precision <= INT_MAX
    requires q == |ConversionText(None, flags, spec, t)| <= |f| && Ahead(f, 1, ConversionText(None, flags, spec, t))
    requires shown == WithFlags(RIGHT_ALIGNED, flags).(width := spec.width, precision := spec.precision)
    requires ArgumentAt(f, q, args, Base(0, []), NO_INDEX, shown) == r
    ensures ConversionAt(f, 1, args, Base(0, [])) == r
  {
    ConversionReadsBack(f, 1, args, Base(0, []), None, flags, spec, t, shown, q);
  }

  lemma FirstEnds(f: CString, q: nat, a: Argument, args: seq<Argument>, shown: Spec, b: Base, r: Traced<Piece>)
    requires q <= |f| && b.next >= -1 && TailAt(f, q, 0, a, shown, b) == r
    requires FetchAt(f, q, args, Base(0, []), NO_INDEX) == Moved(a, q, b)
    ensures ArgumentAt(f, q, args, Base(0, []), NO_INDEX, shown) == r
  {
    ArgumentIs(f, q, args, Base(0, []), NO_INDEX, shown, a, b, 0, r);
  }

  lemma FlaggedConversion(f: CString, flags: string, spec: Spec, t: char, a: Argument, more: seq<Argument>, shown: Spec,
                          q: nat, r: Traced<Piece>)
    requires AllFlags(flags) && IsLetter(t) && spec.width <= INT_MAX && -1 <= spec.precision <= INT_MAX
    requires q == |ConversionText(None, flags, spec, t)| <= |f| && Ahead(f, 1, ConversionText(None, flags, spec, t))
    requires shown == WithFlags(RIGHT_ALIGNED, flags).(width := spec.width, precision := spec.precision)
    requires TailAt(f, q, 0, a, shown, Base(1, [Got(Next, a)])) == r
    ensures ConversionAt(f, 1, [a] + more, Base(0, [])) == r
  {
    FirstArgument(f, q, a, more);
    FirstEnds(f, q, a, [a] + more, shown, Base(1, [Got(Next, a)]), r);
    FlaggedFrom(f, flags, spec, t, [a] + more, shown, q, r);
  }

  /** The flags there are. */
  predicate FlagsOnly(flags: string) {
    forall i | 0 <= i < |flags| ::
      flags[i] == '-' || flags[i] == '+' || flags[i] == '0' || flags[i] == ' ' || flags[i] == '#'
  }

  /** What flags, width, precision and type come to for a number. */
  function NumberSpec(flags: string, spec: Spec, zero: bool, t: char): Spec {
    Spec(spec.width,
         if '0' in flags then '0' else ' ',
         if '0' in flags then AlignNumeric else if '-' in flags then AlignLeft else AlignRight,
         spec.precision,
         '+' in flags || ' ' in flags, '+' in flags, false, '#' in flags && !zero,
         if t == 'i' || t == 'u' then 'd' else t)
  }

  lemma FlaggedNormal(flags: string, spec: Spec, t: char, a: Argument, shown: Spec) returns (n: Argument, adjusted: Spec)
    requires NumberType(t) && PlainNumber(a)
    requires shown == WithFlags(RIGHT_ALIGNED, flags).(width := spec.width, precision := spec.precision)
    ensures Converted(a, Own, t) == n && Adjusted(shown, a) == adjusted
    ensures var final := NumberSpec(flags, spec, a.number == 0, t);
      Normalized(n, adjusted, t) == (n, final) && PrintfFault(n, final) == None
    ensures Remains(a.number, n.number, BitsLeft("", a.kind, t == 'd' || t == 'i'), t == 'd' || t == 'i')
    ensures n.kind in {KindInt, KindUInt, KindLongLong, KindULongLong}
  {
    n, adjusted := Converted(a, Own, t), Adjusted(shown, a);
    NumberRemains(a, "", t);
    NumberSpecIs(flags, spec, t, a, shown, n);
  }

  lemma NumberSpecIs(flags: string, spec: Spec, t: char, a: Argument, shown: Spec, n: Argument)
    requires NumberType(t) && PlainNumber(a) && n.kind in {KindInt, KindUInt, KindLongLong, KindULongLong}
    requires shown == WithFlags(RIGHT_ALIGNED, flags).(width := spec.width, precision := spec.precision)
    ensures var final := NumberSpec(flags, spec, a.number == 0, t);
      Normalized(n, Adjusted(shown, a), t) == (n, final) && PrintfFault(n, final) == None
  {
  }

  lemma OwnLength(f: CString, s: nat)
    requires s < |f| && (NumberType(f[s]) || f[s] == 's')
    ensures Length(f, s) == (Some(Own), s)
  {
  }

  lemma OwnTail(f: CString, a: Argument, t: char, shown: Spec, b: Base, adjusted: Spec, converted: Argument, n: Argument,
                final: Spec)
    requires |f| >= 1 && f[|f| - 1] == t && (NumberType(t) || t == 's') && b.next >= -1
    requires Adjusted(shown, a) == adjusted && Converted(a, Own, t) == converted
    requires Normalized(converted, adjusted, t) == (n, final) && PrintfFault(n, final) == None
    ensures TailAt(f, |f| - 1, 0, a, shown, b) == Moved(Field(0, a, n, final), |f|, b)
  {
    OwnLength(f, |f| - 1);
    TailIs(f, |f| - 1, 0, a, shown, b, Own, |f| - 1, t, adjusted, converted, n, final);
  }

  /**
   * Flags, width and precision of a number: a zero pads behind the sign and overrides a minus, a minus
   * aligns left, a plus or a blank shows a sign, and the alternate form is dropped for zero.
   */
  lemma FlaggedNumber(f: CString, flags: string, spec: Spec, t: char, a: Argument, more: seq<Argument>)
    returns (n: Argument)
    requires FlagsOnly(flags) && NumberType(t) && spec.width <= INT_MAX && -1 <= spec.precision <= INT_MAX
    requires f == "%" + ConversionText(None, flags, spec, t) && PlainNumber(a)
    ensures Print(f, [a] + more) == Done([Field(0, a, n, NumberSpec(flags, spec, a.number == 0, t))], Base(1, [Got(Next, a)]))
    ensures Remains(a.number, n.number, BitsLeft("", a.kind, t == 'd' || t == 'i'), t == 'd' || t == 'i')
    ensures n.kind in {KindInt, KindUInt, KindLongLong, KindULongLong}
  {
    var shown := WithFlags(RIGHT_ALIGNED, flags).(width := spec.width, precision := spec.precision);
    n := FlaggedTail(f, flags, spec, t, a, shown);
    ConversionStart(f, flags, spec, t);
    var field, b := Field(0, a, n, NumberSpec(flags, spec, a.number == 0, t)), Base(1, [Got(Next, a)]);
    FlaggedConversion(f, flags, spec, t, a, more, shown, |f| - 1, Moved(field, |f|, b));
    PrintOneField(f, [a] + more, field, b);
  }

  lemma FlaggedTail(f: CString, flags: string, spec: Spec, t: char, a: Argument, shown: Spec) returns (n: Argument)
    requires AllFlags(flags) && NumberType(t) && PlainNumber(a) && f == "%" + ConversionText(None, flags, spec, t)
    requires shown == WithFlags(RIGHT_ALIGNED, flags).(width := spec.width, precision := spec.precision)
    ensures |f| >= 1
    ensures TailAt(f, |f| - 1, 0, a, shown, Base(1, [Got(Next, a)]))
         == Moved(Field(0, a, n, NumberSpec(flags, spec, a.number == 0, t)), |f|, Base(1, [Got(Next, a)]))
    ensures Remains(a.number, n.number, BitsLeft("", a.kind, t == 'd' || t == 'i'), t == 'd' || t == 'i')
    ensures n.kind in {KindInt, KindUInt, KindLongLong, KindULongLong}
  {
    ConversionStart(f, flags, spec, t);
    var adjusted;
    n, adjusted := FlaggedNormal(flags, spec, t, a, shown);
    OwnTail(f, a, t, shown, Base(1, [Got(Next, a)]), adjusted, n, n, NumberSpec(flags, spec, a.number == 0, t));
  }

  function StringFlags(flags: string, spec: Spec): Spec {
    spec.(fill := ' ', align := if '-' in flags then AlignLeft else AlignRight)
  }

  /** A string is padded with blanks whatever the flags, on the left unless there is a minus. */
  lemma FlaggedString(f: CString, flags: string, spec: Spec, a: Argument, more: seq<Argument>, r: Space, sep: string,
                      doubles: Shower)
    requires FlagsOnly(flags) && spec.width <= INT_MAX && -1 <= spec.precision <= INT_MAX
    requires f == "%" + ConversionText(None, flags, spec, 's') && a.number != 0
    requires a.kind == KindCString || a.kind == KindString
    ensures Prints(f, [a] + more, a, Base(1, [Got(Next, a)]),
                   StrText(FieldTexts.Front(a.text, spec.precision), StringFlags(flags, spec)), r, sep, doubles)
  {
    var shown := WithFlags(RIGHT_ALIGNED, flags).(width := spec.width, precision := spec.precision);
    var final := Adjusted(shown, a).(kind := 's');
    var text := StrText(FieldTexts.Front(a.text, spec.precision), StringFlags(flags, spec));
    ConversionStart(f, flags, spec, 's');
    StringField(flags, spec, shown, final, a, doubles);
    StringEnd(f, a, shown, final, Adjusted(shown, a));
    FlaggedConversion(f, flags, spec, 's', a, more, shown, |f| - 1, Moved(Field(0, a, a, final), |f|, Base(1, [Got(Next, a)])));
    PrintOneField(f, [a] + more, Field(0, a, a, final), Base(1, [Got(Next, a)]));
    PrintsField(f, [a] + more, Field(0, a, a, final), Base(1, [Got(Next, a)]), AsText(text), text, r, sep, doubles);
  }

  lemma StringField(flags: string, spec: Spec, shown: Spec, final: Spec, a: Argument, doubles: Shower)
    requires (a.kind == KindCString || a.kind == KindString) && a.number != 0
    requires shown == WithFlags(RIGHT_ALIGNED, flags).(width := spec.width, precision := spec.precision)
    requires final == Adjusted(shown, a).(kind := 's')
    ensures Converted(a, Own, 's') == a && Normalized(a, Adjusted(shown, a), 's') == (a, final)
    ensures PrintfFault(a, final) == None
    ensures PrintfParts(a, final, doubles)
         == [AsText(StrText(FieldTexts.Front(a.text, spec.precision), StringFlags(flags, spec)))]
  {
    FieldTexts.StringShown(a, final, doubles);
    SameField(FieldTexts.Front(a.text, spec.precision), final, StringFlags(flags, spec));
  }

  lemma StringEnd(f: CString, a: Argument, shown: Spec, final: Spec, adjusted: Spec)
    requires |f| >= 1 && f[|f| - 1] == 's' && Converted(a, Own, 's') == a && Adjusted(shown, a) == adjusted
    requires Normalized(a, adjusted, 's') == (a, final) && PrintfFault(a, final) == None
    ensures TailAt(f, |f| - 1, 0, a, shown, Base(1, [Got(Next, a)])) == Moved(Field(0, a, a, final), |f|, Base(1, [Got(Next, a)]))
  {
    OwnTail(f, a, 's', shown, Base(1, [Got(Next, a)]), adjusted, a, a, final);
  }

  lemma SameField(text: string, x: Spec, y: Spec)
    requires x.width == y.width && x.fill == y.fill && x.align == y.align
    ensures StrText(text, x) == StrText(text, y)
  {
  }

  // ---- stars ---------------------------------------------------------------------------------------

  /** A width argument that is negative asks for left alignment; only integers will do. */
  lemma StarWidth(f: CString, s: nat, args: seq<Argument>, b: Base, spec: Spec, w: Argument)
    requires s < |f| && f[s] == '*' && 0 <= b.next < |args| && args[b.next] == w
    ensures var c := Base(b.next + 1, b.got + [Got(Next, w)]); var n := w.number;
      StarWidthAt(f, s, args, b, spec)
      == if w.kind !in {KindInt, KindUInt, KindLongLong, KindULongLong, KindBool, KindChar} then Stopped(WidthNotInteger)
         else if n < -2147483647 || n > 2147483647 then Stopped(NumberTooBig)
         else if n < 0 then Moved(spec.(align := AlignLeft, width := -n), s + 1, c)
         else Moved(spec.(width := n), s + 1, c)
  {
  }

  /** A precision argument may be negative, and is then none. */
  lemma StarPrecision(f: CString, s: nat, args: seq<Argument>, b: Base, spec: Spec, p: Argument)
    requires s + 1 < |f| && f[s] == '.' && f[s + 1] == '*' && 0 <= b.next < |args| && args[b.next] == p
    ensures var c := Base(b.next + 1, b.got + [Got(Next, p)]); var n := p.number;
      StarPrecisionAt(f, s, args, b, spec)
      == if p.kind !in {KindInt, KindUInt, KindLongLong, KindULongLong, KindBool, KindChar} then Stopped(PrecisionNotInteger)
         else if n < -2147483648 || n > 2147483647 then Stopped(NumberTooBig)
         else Moved(spec.(precision := n), s + 2, c)
  {
  }

  /** A dot alone is a precision of zero. */
  lemma DotAlone(f: CString, s: nat, args: seq<Argument>, b: Base, spec: Spec)
    requires s < |f| && b.next >= -1 && f[s] == '.' && CharAt(f, s + 1) != '*' && !('0' <= CharAt(f, s + 1) <= '9')
    ensures StarPrecisionAt(f, s, args, b, spec) == Moved(spec.(precision := 0), s + 1, b)
  {
  }

  // ---- what can be shown ---------------------------------------------------------------------------

  /** The types printf can show each kind of argument as, once it has been converted. */
  lemma PrintedAs(a: Argument, spec: Spec)
    ensures a.kind in {KindInt, KindUInt, KindLongLong, KindULongLong} ==>
      (PrintfFault(a, spec) == None <==> spec.kind in {'\0', 'd', 'n', 'x', 'X', 'o', 'b', 'B'})
    ensures a.kind == KindBool ==>
      (PrintfFault(a, spec) == None <==> spec.kind in {'\0', 's', 'd', 'n', 'x', 'X', 'o', 'b', 'B'})
    ensures a.kind == KindChar ==>
      (PrintfFault(a, spec) == None <==> spec.kind in {'\0', 'c', 'd', 'n', 'x', 'X', 'o', 'b', 'B'})
    ensures a.kind in {KindDouble, KindLongDouble} ==>
      (PrintfFault(a, spec) == None <==> spec.kind in {'\0', 'e', 'E', 'f', 'F', 'g', 'G', 'a', 'A'})
    ensures a.kind == KindCString ==> (PrintfFault(a, spec) == None <==> spec.kind in {'\0', 's', 'p'})
    ensures a.kind == KindString ==> (PrintfFault(a, spec) == None <==> spec.kind in {'\0', 's'} && a.number != 0)
    ensures a.kind == KindPointer ==> (PrintfFault(a, spec) == None <==> spec.kind in {'\0', 'p'} || a.number == 0)
  {
  }

  // ---- %c ------------------------------------------------------------------------------------------

  lemma ByteOf(n: int)
    ensures CharOf(WrapSigned(n, 8)) == (n % 256) as char
  {
    assert Modulus(8) == 256;
    var u := n % 256;
    if 2 * u >= 256 {
      Arithmetic.QuotientUnique(u - 256, 256, -1, u);
    } else {
      Arithmetic.QuotientUnique(u, 256, 0, u);
    }
  }

  lemma CharShows(a: Argument, doubles: Shower)
    requires PlainNumber(a)
    ensures var n := Converted(a, Own, 'c'); var shown := n.(kind := KindChar, number := WrapSigned(n.number, 8));
      var spec := RIGHT_ALIGNED.(kind := 'c');
      && Normalized(n, RIGHT_ALIGNED, 'c') == (shown, spec) && PrintfFault(shown, spec) == None
      && PrintfParts(shown, spec, doubles) == [AsText([(n.number % 256) as char])]
  {
    ByteOf(Converted(a, Own, 'c').number);
    var c := (Converted(a, Own, 'c').number % 256) as char;
    assert "" + [c] + "" == [c];
  }

  /** The lowest byte survives the conversion to the argument's own unsigned type. */
  lemma SameByte(a: Argument)
    requires PlainNumber(a)
    ensures Converted(a, Own, 'c').number % 256 == a.number % 256
  {
    NumberRemains(a, "", 'c');
    ByteRemains(a.number, Converted(a, Own, 'c').number, BitsLeft("", a.kind, false));
  }

  lemma ByteRemains(n: int, m: int, bits: nat)
    requires bits in {8, 16, 32, 64} && Remains(n, m, bits, false)
    ensures m % 256 == n % 256
  {
    var size := TwoToThe(bits);
    var k: int :| m == n + k * size;
    var j := if bits == 8 then 1 else if bits == 16 then 256 else if bits == 32 then 16777216 else 72057594037927936;
    ByteShift(n, k, j, size);
  }

  lemma ByteShift(n: int, k: int, j: int, size: int)
    requires size == 256 * j
    ensures (n + k * size) % 256 == n % 256
  {
    var q, r := n / 256, n % 256;
    assert k * (256 * j) == (k * j) * 256;
    assert n + k * (256 * j) == (q + k * j) * 256 + r;
    Arithmetic.QuotientUnique(n + k * (256 * j), 256, q + k * j, r);
  }

  lemma CharTail(f: CString, a: Argument, b: Base, shown: Argument)
    requires f == "%c" && PlainNumber(a) && b.next >= -1
    requires shown == Converted(a, Own, 'c').(kind := KindChar, number := WrapSigned(Converted(a, Own, 'c').number, 8))
    ensures TailAt(f, 1, 0, a, RIGHT_ALIGNED, b) == Moved(Field(0, a, shown, RIGHT_ALIGNED.(kind := 'c')), 2, b)
  {
    CharShows(a, (_, _) => "");
    TailIs(f, 1, 0, a, RIGHT_ALIGNED, b, Own, 1, 'c', RIGHT_ALIGNED, Converted(a, Own, 'c'), shown,
           RIGHT_ALIGNED.(kind := 'c'));
  }

  /** `%c` shows the character whose code is the number's lowest byte. */
  lemma PercentC(f: CString, a: Argument, more: seq<Argument>, r: Space, sep: string, doubles: Shower)
    requires f == "%c" && PlainNumber(a)
    ensures Prints(f, [a] + more, a, Base(1, [Got(Next, a)]), [(a.number % 256) as char], r, sep, doubles)
  {
    var n, b, text := Converted(a, Own, 'c'), Base(1, [Got(Next, a)]), [(a.number % 256) as char];
    var field := Field(0, a, n.(kind := KindChar, number := WrapSigned(n.number, 8)), RIGHT_ALIGNED.(kind := 'c'));
    CharShows(a, doubles);
    SameByte(a);
    CharTail(f, a, b, field.shown);
    BareConversion(f, a, more, Moved(field, 2, b));
    PrintOneField(f, [a] + more, field, b);
    PrintsField(f, [a] + more, field, b, AsText(text), text, r, sep, doubles);
  }

  /** A percent sign at the very end is no conversion. */
  lemma PercentAlone(args: seq<Argument>)
    ensures Print("%", args) == Failed(InvalidFormat)
  {
    var f: CString := "%";
    EndsThere(f, args);
    FirstConversion(f, args, Base(0, []), Stopped(InvalidFormat));
  }

  lemma EndsThere(f: CString, args: seq<Argument>)
    requires f == "%"
    ensures ConversionAt(f, 1, args, Base(0, [])) == Stopped(InvalidFormat)
  {
    assert FlagsFrom(f, 1, RIGHT_ALIGNED) == (RIGHT_ALIGNED, 1);
    assert HeaderAt(f, 1, args, Base(0, [])) == Moved(Header(NO_INDEX, RIGHT_ALIGNED), 1, Base(0, []));
    if args != [] {
      assert FetchAt(f, 1, args, Base(0, []), NO_INDEX) == Moved(args[0], 1, Base(1, [Got(Next, args[0])]));
    }
  }
}
