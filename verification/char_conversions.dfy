/** Which printf conversions write a character as a number, and which write it twice. */
module CharConversions {
  import opened Options
  import opened ArgLists
  import opened WriteIntegers
  import opened Buffers
  import opened Parts
  import opened FormatterBases
  import opened Rendering
  import opened OutputPieces
  import opened PrintfFormatters
  import opened PrintfRuns
  import opened FormatTexts

  /** A field that comes out as a number with the character behind it. */
  predicate ComesTwice(p: Piece) {
    p.Field? && p.shown.kind == KindChar && p.spec.kind !in {NUL, 'c'}
  }

  /** A field is written in two parts exactly when it comes twice, and in one otherwise. */
  lemma PartsOfField(p: Piece, doubles: Shower)
    requires p.Field?
    ensures |PieceParts(p, Printf, doubles)| == if ComesTwice(p) then 2 else 1
  {
  }

  /** The end of a conversion, from its length modifier on, that leaves a character as it is. */
  predicate KeepsChar(f: CString, s: nat, a: Argument)
    requires s <= |f|
  {
    var (t, p) := Length(f, s);
    a.kind == KindChar && t.None? && CharAt(f, p) !in {'c', 's'}
  }

  /** Only the modifier `L` skips the conversion that would make a number of the character. */
  lemma TailComesTwiceIff(f: CString, s: nat, from: nat, a: Argument, spec: Spec, b: Base)
    requires s <= |f| && b.next >= -1 && TailAt(f, s, from, a, spec, b).Moved?
    ensures ComesTwice(TailAt(f, s, from, a, spec, b).value) <==> KeepsChar(f, s, a)
  {
  }

  /** Where the end of a conversion begins, behind its precision. */
  function TailStart(f: CString, s: nat, args: seq<Argument>, b: Base): (p: nat)
    requires s <= |f| && b.next >= -1 && ConversionAt(f, s, args, b).Moved?
    ensures p <= |f|
  {
    var h := HeaderAt(f, s, args, b);
    StarPrecisionAt(f, h.pos, args, h.base, h.value.spec).pos
  }

  /** So a conversion writes its argument twice iff that is a character and `L` stands before another type. */
  lemma ComesTwiceIff(f: CString, s: nat, args: seq<Argument>, b: Base, doubles: Shower)
    requires s <= |f| && b.next >= -1 && ConversionAt(f, s, args, b).Moved?
    ensures var p := ConversionAt(f, s, args, b).value;
      && p.Field? && (ComesTwice(p) <==> KeepsChar(f, TailStart(f, s, args, b), p.arg))
      && |PieceParts(p, Printf, doubles)| == if ComesTwice(p) then 2 else 1
  {
    var h := HeaderAt(f, s, args, b);
    var x := StarPrecisionAt(f, h.pos, args, h.base, h.value.spec);
    ArgumentComesTwice(f, x.pos, args, x.base, h.value.argIndex, x.value);
    PartsOfField(ConversionAt(f, s, args, b).value, doubles);
  }

  lemma ArgumentComesTwice(f: CString, s: nat, args: seq<Argument>, b: Base, argIndex: nat, spec: Spec)
    requires s <= |f| && b.next >= -1 && ArgumentAt(f, s, args, b, argIndex, spec).Moved?
    ensures var p := ArgumentAt(f, s, args, b, argIndex, spec).value;
      p.Field? && (ComesTwice(p) <==> KeepsChar(f, s, p.arg))
  {
    var a := FetchAt(f, s, args, b, argIndex);
    TailComesTwiceIff(f, s, |b.got|, a.value, spec, a.base);
  }

  // ---- whole runs ----------------------------------------------------------------------------------

  predicate NumberType(t: char) {
    t in {'d', 'i', 'u', 'x', 'X', 'o', 'b', 'B', 'n'}
  }

  /** The type a conversion ends up with. */
  function FinalType(t: char): char {
    if t == 'i' || t == 'u' then 'd' else t
  }

  lemma BareHeader(f: CString, args: seq<Argument>, b: Base)
    requires |f| >= 2 && ('a' <= f[1] <= 'z' || 'A' <= f[1] <= 'Z') && b.next >= -1
    ensures HeaderAt(f, 1, args, b) == Moved(Header(NO_INDEX, RIGHT_ALIGNED), 1, b)
    ensures StarPrecisionAt(f, 1, args, b, RIGHT_ALIGNED) == Moved(RIGHT_ALIGNED, 1, b)
  {
    assert FlagsFrom(f, 1, RIGHT_ALIGNED) == (RIGHT_ALIGNED, 1);
  }

  lemma FirstFetch(f: CString, v: Argument, more: seq<Argument>)
    requires |f| >= 2
    ensures FetchAt(f, 1, [v] + more, Base(0, []), NO_INDEX) == Moved(v, 1, Base(1, [Got(Next, v)]))
  {
  }

  /** A conversion without index, flags, width and precision goes straight to its argument. */
  lemma BareConversion(f: CString, v: Argument, more: seq<Argument>, r: Traced<Piece>)
    requires |f| >= 2 && f[0] == '%' && ('a' <= f[1] <= 'z' || 'A' <= f[1] <= 'Z')
    requires TailAt(f, 1, 0, v, RIGHT_ALIGNED, Base(1, [Got(Next, v)])) == r
    ensures ConversionAt(f, 1, [v] + more, Base(0, [])) == r
  {
    BareHeader(f, [v] + more, Base(0, []));
    FirstFetch(f, v, more);
  }

  lemma LongTail(f: CString, c: Argument, t: char, b: Base)
    requires f == "%L" + [t] && c.kind == KindChar && NumberType(t) && b.next >= -1
    ensures TailAt(f, 1, 0, c, RIGHT_ALIGNED, b)
         == Moved(Field(0, c, c, RIGHT_ALIGNED.(kind := FinalType(t))), 3, b)
  {
    assert f[1] == 'L' && f[2] == t;
  }

  lemma LongCharRun(f: CString, c: Argument, t: char, more: seq<Argument>)
    requires f == "%L" + [t] && c.kind == KindChar && NumberType(t)
    ensures Print(f, [c] + more)
         == Done([Field(0, c, c, RIGHT_ALIGNED.(kind := FinalType(t)))], Base(1, [Got(Next, c)]))
  {
    var b, field := Base(1, [Got(Next, c)]), Field(0, c, c, RIGHT_ALIGNED.(kind := FinalType(t)));
    assert f[0] == '%' && f[1] == 'L';
    LongTail(f, c, t, b);
    BareConversion(f, c, more, Moved(field, 3, b));
    PrintOneField(f, [c] + more, field, b);
  }

  lemma LongCharText(c: Argument, t: char, r: Space, sep: string, doubles: Shower)
    requires c.kind == KindChar && NumberType(t)
    ensures var field := Field(0, c, c, RIGHT_ALIGNED.(kind := FinalType(t)));
      && InPlace(r, PiecesParts([field], Printf, doubles), sep)
      && PartsText(PiecesParts([field], Printf, doubles), sep)
         == IntText(c.number, RIGHT_ALIGNED.(kind := FinalType(t)), sep) + [CharOf(c.number)]
  {
    OneFieldParts(Field(0, c, c, RIGHT_ALIGNED.(kind := FinalType(t))), Printf, doubles);
    CharPiece(c, RIGHT_ALIGNED.(kind := FinalType(t)), doubles);
    TwoParts(c.number, RIGHT_ALIGNED.(kind := FinalType(t)), r, sep);
  }

  lemma CharPiece(c: Argument, spec: Spec, doubles: Shower)
    requires c.kind == KindChar
    ensures PieceParts(Field(0, c, c, spec), Printf, doubles) == CharParts(c.number, spec)
  {
  }

  /** `%Ld` of a character, and its like: the number and, right behind it, the character. */
  lemma LongCharComesTwice(f: CString, c: Argument, t: char, more: seq<Argument>, r: Space, sep: string, doubles: Shower)
    requires f == "%L" + [t] && c.kind == KindChar && NumberType(t)
    ensures var field := Field(0, c, c, RIGHT_ALIGNED.(kind := FinalType(t)));
      && Print(f, [c] + more) == Done([field], Base(1, [Got(Next, c)]))
      && InPlace(r, PiecesParts([field], Printf, doubles), sep)
      && PartsText(PiecesParts([field], Printf, doubles), sep)
         == IntText(c.number, RIGHT_ALIGNED.(kind := FinalType(t)), sep) + [CharOf(c.number)]
  {
    LongCharRun(f, c, t, more);
    LongCharText(c, t, r, sep, doubles);
  }

  lemma TwoParts(n: int, spec: Spec, r: Space, sep: string)
    requires spec.kind !in {NUL, 'c'} && spec.width == 0 && spec.align == AlignRight
    ensures InPlace(r, CharParts(n, spec), sep)
    ensures PartsText(CharParts(n, spec), sep) == IntText(n, spec, sep) + [CharOf(n)]
  {
    var number, character := AsInt(n, 32, true, spec), AsText(StrText([CharOf(n)], CharSpec(spec)));
    assert "" + [CharOf(n)] + "" == [CharOf(n)];
    PartsJoin(r, [number], [character], sep);
    OnePart(r, number, sep);
    OnePart(RoomAfter(r, [number], sep), character, sep);
  }

  /** The number a conversion without modifier makes of a character. */
  function CharNumber(c: Argument, t: char): int {
    if t == 'd' || t == 'i' then c.number else c.number % 256
  }

  lemma CharConverted(c: Argument, t: char)
    requires c.kind == KindChar && InRange(c) && NumberType(t)
    ensures Converted(c, Own, t)
         == c.(kind := if t == 'd' || t == 'i' then KindInt else KindUInt, number := CharNumber(c, t))
  {
    assert Modulus(8) == 256;
    WrapStays(c.number, 8, 256);
    ConvertedIs(c, Own, t);
  }

  lemma BareNormalized(c: Argument, t: char)
    requires c.kind == KindChar && InRange(c) && NumberType(t)
    ensures var shown, spec := Converted(c, Own, t), RIGHT_ALIGNED.(kind := FinalType(t));
      Normalized(shown, RIGHT_ALIGNED, t) == (shown, spec) && PrintfFault(shown, spec) == None
  {
    CharConverted(c, t);
  }

  lemma BareTail(f: CString, c: Argument, t: char, b: Base)
    requires f == "%" + [t] && c.kind == KindChar && InRange(c) && NumberType(t) && b.next >= -1
    ensures TailAt(f, 1, 0, c, RIGHT_ALIGNED, b)
         == Moved(Field(0, c, Converted(c, Own, t), RIGHT_ALIGNED.(kind := FinalType(t))), 2, b)
  {
    var shown := Converted(c, Own, t);
    assert f[1] == t;
    BareNormalized(c, t);
    TailIs(f, 1, 0, c, RIGHT_ALIGNED, b, Own, 1, t, RIGHT_ALIGNED, shown, shown, RIGHT_ALIGNED.(kind := FinalType(t)));
  }

  lemma BareCharRun(f: CString, c: Argument, t: char, more: seq<Argument>)
    requires f == "%" + [t] && c.kind == KindChar && InRange(c) && NumberType(t)
    ensures Print(f, [c] + more)
         == Done([Field(0, c, Converted(c, Own, t), RIGHT_ALIGNED.(kind := FinalType(t)))], Base(1, [Got(Next, c)]))
  {
    var b := Base(1, [Got(Next, c)]);
    var field := Field(0, c, Converted(c, Own, t), RIGHT_ALIGNED.(kind := FinalType(t)));
    assert f[0] == '%' && f[1] == t;
    BareTail(f, c, t, b);
    BareConversion(f, c, more, Moved(field, 2, b));
    PrintOneField(f, [c] + more, field, b);
  }

  /** `%d` of a character, and its like: the number alone. */
  lemma BareCharComesOnce(f: CString, c: Argument, t: char, more: seq<Argument>, r: Space, sep: string, doubles: Shower)
    requires f == "%" + [t] && c.kind == KindChar && InRange(c) && NumberType(t)
    ensures var field := Field(0, c, Converted(c, Own, t), RIGHT_ALIGNED.(kind := FinalType(t)));
      && Print(f, [c] + more) == Done([field], Base(1, [Got(Next, c)]))
      && InPlace(r, PiecesParts([field], Printf, doubles), sep)
      && PartsText(PiecesParts([field], Printf, doubles), sep)
         == IntText(CharNumber(c, t), RIGHT_ALIGNED.(kind := FinalType(t)), sep)
  {
    var shown, spec := Converted(c, Own, t), RIGHT_ALIGNED.(kind := FinalType(t));
    BareCharRun(f, c, t, more);
    OneFieldParts(Field(0, c, shown, spec), Printf, doubles);
    CharConverted(c, t);
    OnePart(r, ShowPart(shown, spec, doubles), sep);
  }
}
