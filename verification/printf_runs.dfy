/** What holds of every printf run. */
module PrintfRuns {
  import opened Options
  import Arithmetic
  import opened CountDigits
  import opened ArgLists
  import opened FormatIntegers
  import opened WriteIntegers
  import opened FormatterBases
  import opened Rendering
  import opened OutputPieces
  import opened PrintfFormatters

  // ---- one indexing mode per run -------------------------------------------------------------------

  lemma GotContinues(f: CString, s: nat, args: seq<Argument>, b: Base, argIndex: nat)
    requires s <= |f| && Consistent(args, b) && FetchAt(f, s, args, b, argIndex).Moved?
    ensures var r := FetchAt(f, s, args, b, argIndex);
      Continues(args, b, r.base) && r.base.got == b.got + [Got(RequestFor(argIndex), r.value)]
  {
    FetchKeepsConsistent(args, b, RequestFor(argIndex));
    FetchRecords(args, b, RequestFor(argIndex));
  }

  lemma StarWidthContinues(f: CString, s: nat, args: seq<Argument>, b: Base, spec: Spec)
    requires s <= |f| && Consistent(args, b) && StarWidthAt(f, s, args, b, spec).Moved?
    ensures Continues(args, b, StarWidthAt(f, s, args, b, spec).base)
  {
    if !DigitAt(f, s) && CharAt(f, s) == '*' {
      GotContinues(f, s + 1, args, b, NO_INDEX);
    }
  }

  lemma AfterIndexContinues(f: CString, s: nat, args: seq<Argument>, b: Base, argIndex: nat, spec: Spec)
    requires s <= |f| && Consistent(args, b) && AfterIndex(f, s, args, b, argIndex, spec).Moved?
    ensures Continues(args, b, AfterIndex(f, s, args, b, argIndex, spec).base)
    ensures AfterIndex(f, s, args, b, argIndex, spec).value.argIndex == argIndex
  {
    var (flagged, p) := FlagsFrom(f, s, spec);
    StarWidthContinues(f, p, args, b, flagged);
  }

  lemma HeaderContinues(f: CString, s: nat, args: seq<Argument>, b: Base)
    requires s <= |f| && Consistent(args, b) && HeaderAt(f, s, args, b).Moved?
    ensures Continues(args, b, HeaderAt(f, s, args, b).base)
  {
    if DigitAt(f, s) {
      var n := NumberAt(f, s);
      var zero := if f[s] == '0' then RIGHT_ALIGNED.(fill := '0') else RIGHT_ALIGNED;
      if CharAt(f, n.pos) == '$' {
        AfterIndexContinues(f, n.pos + 1, args, b, n.value, RIGHT_ALIGNED);
      } else if n.value == 0 {
        AfterIndexContinues(f, n.pos, args, b, NO_INDEX, zero);
      }
    } else {
      AfterIndexContinues(f, s, args, b, NO_INDEX, RIGHT_ALIGNED);
    }
  }

  lemma StarPrecisionContinues(f: CString, s: nat, args: seq<Argument>, b: Base, spec: Spec)
    requires s <= |f| && Consistent(args, b) && StarPrecisionAt(f, s, args, b, spec).Moved?
    ensures Continues(args, b, StarPrecisionAt(f, s, args, b, spec).base)
  {
    if CharAt(f, s) == '.' && !DigitAt(f, s + 1) && CharAt(f, s + 1) == '*' {
      GotContinues(f, s + 2, args, b, NO_INDEX);
    }
  }

  /** What a whole conversion fetches: perhaps a width and a precision, and then its argument. */
  lemma ConversionContinues(f: CString, s: nat, args: seq<Argument>, b: Base)
    requires s <= |f| && Consistent(args, b) && ConversionAt(f, s, args, b).Moved?
    ensures var r := ConversionAt(f, s, args, b);
      && Continues(args, b, r.base) && r.value.Field?
      && |b.got| <= r.value.from == |r.base.got| - 1 && r.base.got[r.value.from].arg == r.value.arg
      && r.base.got[r.value.from].request == RequestFor(HeaderAt(f, s, args, b).value.argIndex)
  {
    var h := HeaderAt(f, s, args, b);
    HeaderContinues(f, s, args, b);
    var p := StarPrecisionAt(f, h.pos, args, h.base, h.value.spec);
    StarPrecisionContinues(f, h.pos, args, h.base, h.value.spec);
    GotContinues(f, p.pos, args, p.base, h.value.argIndex);
    ContinuesTwice(args, b, h.base, p.base);
    ContinuesTwice(args, b, p.base, FetchAt(f, p.pos, args, p.base, h.value.argIndex).base);
  }

  lemma ConversionsReadFields(f: CString, args: seq<Argument>)
    ensures ReadsFields(f, args, Conversions(f, args))
  {
    forall s: nat, b: Base | s < |f| && Consistent(args, b) ensures ReadsField(args, b, Conversions(f, args)(s, b)) {
      ConversionReadsField(f, s, args, b);
    }
  }

  lemma ConversionReadsField(f: CString, s: nat, args: seq<Argument>, b: Base)
    requires s < |f| && Consistent(args, b)
    ensures ReadsField(args, b, Conversions(f, args)(s, b))
  {
    ConversionRead(f, args, s, b);
    if ConversionAt(f, s + 1, args, b).Moved? {
      ConversionContinues(f, s + 1, args, b);
    }
  }

  /** As with braces: one mode per run, stars included, and every conversion shows what it fetched. */
  lemma OneModePerPrint(f: CString, args: seq<Argument>)
    requires Print(f, args).Done?
    ensures Consistent(args, Print(f, args).base)
    ensures Traceable(Print(f, args).pieces, 0, Print(f, args).base)
  {
    ConversionsReadFields(f, args);
    ScanContinues(f, PERCENT, Conversions(f, args), 0, 0, args, Base(0, []));
  }

  /** A conversion with an index fetches nothing else: a star beside an index is always refused. */
  lemma NoStarBesideIndex(f: CString, s: nat, args: seq<Argument>, b: Base)
    requires s <= |f| && Consistent(args, b) && ConversionAt(f, s, args, b).Moved?
    requires HeaderAt(f, s, args, b).value.argIndex != NO_INDEX
    ensures ConversionAt(f, s, args, b).base.got
         == b.got + [Got(RequestFor(HeaderAt(f, s, args, b).value.argIndex), ConversionAt(f, s, args, b).value.arg)]
  {
    var r := ConversionAt(f, s, args, b);
    ConversionContinues(f, s, args, b);
    var h := HeaderAt(f, s, args, b);
    HeaderContinues(f, s, args, b);
    var p := StarPrecisionAt(f, h.pos, args, h.base, h.value.spec);
    HeaderFetches(f, s, args, b);
    StarPrecisionFetches(f, h.pos, args, h.base, h.value.spec);
    GotContinues(f, p.pos, args, p.base, h.value.argIndex);
  }

  lemma HeaderFetches(f: CString, s: nat, args: seq<Argument>, b: Base)
    requires s <= |f| && Consistent(args, b) && HeaderAt(f, s, args, b).Moved?
    ensures HeaderAt(f, s, args, b).base == b || HeaderAt(f, s, args, b).base.next > 0
  {
  }

  lemma StarPrecisionFetches(f: CString, s: nat, args: seq<Argument>, b: Base, spec: Spec)
    requires s <= |f| && Consistent(args, b) && StarPrecisionAt(f, s, args, b, spec).Moved?
    ensures StarPrecisionAt(f, s, args, b, spec).base == b || StarPrecisionAt(f, s, args, b, spec).base.next > 0
  {
  }

  /** Index zero wraps around to an argument that is never there. */
  lemma IndexZeroFails(f: CString, s: nat, args: seq<Argument>, b: Base)
    requires s <= |f| && b.next >= -1 && |args| < TWO_TO_32
    ensures FetchAt(f, s, args, b, 0).Stopped?
  {
  }

  /** Any text with its percent signs doubled comes out as it is, and no argument is fetched. */
  lemma DoubledPercentsReproduce(t: CString, args: seq<Argument>)
    ensures NUL !in Doubled(t, {'%'})
    ensures var r := Print(Doubled(t, {'%'}), args);
      r.Done? && r.base == Base(0, []) && AllText(r.pieces) == Some(t)
  {
    DoubledIsCString(t, PERCENT);
    var f: CString := Doubled(t, PERCENT);
    DoubledScan(f, PERCENT, Conversions(f, args), 0, 0, t, Base(0, []));
    assert f[0..0] + t == t;
  }

  // ---- conversions ---------------------------------------------------------------------------------

  /** The two numbers differ by a multiple of `m`. */
  ghost predicate Congruent(a: int, b: int, m: nat) {
    exists k: int :: a == b + k * m
  }

  predicate InSignedRange(n: int, m: nat) {
    0 <= 2 * n + m && 2 * n < m
  }

  lemma WrapUnsignedMeaning(n: int, bits: nat)
    ensures WrapUnsigned(n, bits) < Modulus(bits) && Congruent(WrapUnsigned(n, bits), n, Modulus(bits))
  {
    var m := Modulus(bits);
    var k: int := 0 - n / m;
    assert n % m == n + k * m;
  }

  lemma WrapSignedMeaning(n: int, bits: nat)
    requires bits > 0
    ensures InSignedRange(WrapSigned(n, bits), Modulus(bits)) && Congruent(WrapSigned(n, bits), n, Modulus(bits))
  {
    var m := Modulus(bits);
    WrapUnsignedMeaning(n, bits);
    var k: int :| WrapUnsigned(n, bits) == n + k * m;
    OneLess(n, k, m);
  }

  lemma OneLess(n: int, k: int, m: nat)
    ensures Congruent(n + k * m - m, n, m)
  {
    var j: int := k - 1;
    assert n + k * m - m == n + j * m;
  }

  /** The width in which an integer argument is converted. */
  function ConversionBits(kind: Kind, target: Target, signed: bool): (bits: nat)
    ensures bits > 0
  {
    if Narrow(kind, target) then TargetBits(kind, target) else if signed then 64 else KindBits(kind)
  }

  lemma ConvertedIs(a: Argument, target: Target, presentation: char)
    requires IsInteger(a) && a.kind != KindBool && (presentation == 's' ==> a.kind != KindChar)
    ensures var r := Converted(a, target, presentation); var signed := WantsSigned(a.kind, presentation);
      var bits := ConversionBits(a.kind, target, signed);
      && r.number == (if signed then WrapSigned(a.number, bits) else WrapUnsigned(a.number, bits))
      && r.kind == (if Narrow(a.kind, target) then (if signed then KindInt else KindUInt)
                    else if signed then KindLongLong else KindULongLong)
  {
  }

  /**
   * A conversion keeps the number up to a multiple of two to its width and brings it into the range of
   * that width. An unsigned conversion to a long type keeps the argument's own width.
   */
  lemma ConversionMeaning(a: Argument, target: Target, presentation: char)
    requires IsInteger(a) && a.kind != KindBool && (presentation == 's' ==> a.kind != KindChar)
    ensures var r := Converted(a, target, presentation); var signed := WantsSigned(a.kind, presentation);
      var m := Modulus(ConversionBits(a.kind, target, signed));
      && Congruent(r.number, a.number, m)
      && (if signed then InSignedRange(r.number, m) else 0 <= r.number < m)
      && r.kind == (if Narrow(a.kind, target) then (if signed then KindInt else KindUInt)
                    else if signed then KindLongLong else KindULongLong)
  {
    var bits := ConversionBits(a.kind, target, WantsSigned(a.kind, presentation));
    ConvertedIs(a, target, presentation);
    WrapUnsignedMeaning(a.number, bits);
    WrapSignedMeaning(a.number, bits);
  }

  // ---- two fixed strings ---------------------------------------------------------------------------

  predicate IsCount(a: Argument) {
    IsInteger(a) && 0 <= a.number <= INT_MAX
  }

  /** A format string that is one conversion. */
  lemma PrintOneField(f: CString, args: seq<Argument>, field: Piece, c: Base)
    requires |f| >= 2 && f[0] == '%' && f[1] != '%' && c.next >= -1
    requires ConversionAt(f, 1, args, Base(0, [])) == Moved(field, |f|, c)
    ensures Print(f, args) == Done([field], c)
  {
    FirstConversion(f, args, Base(0, []), Moved(field, |f|, c));
    ConversionOnly(f, args, field, c);
  }

  lemma ConversionOnly(f: CString, args: seq<Argument>, field: Piece, c: Base)
    requires |f| >= 2 && f[0] == '%' && f[1] != '%' && c.next >= -1
    requires Conversions(f, args)(0, Base(0, [])) == Moved(field, |f|, c)
    ensures Print(f, args) == Done([field], c)
  {
    OneField(f, PERCENT, Conversions(f, args), Base(0, []), field, c);
  }

  /** A format string whose first conversion is refused. */
  lemma PrintOneFault(f: CString, args: seq<Argument>, fault: Fault)
    requires |f| >= 2 && f[0] == '%' && f[1] != '%' && ConversionAt(f, 1, args, Base(0, [])) == Stopped(fault)
    ensures Print(f, args) == Failed(fault)
  {
    FirstConversion(f, args, Base(0, []), Stopped(fault));
    RefusedFirst(f, args, fault);
  }

  lemma RefusedFirst(f: CString, args: seq<Argument>, fault: Fault)
    requires |f| >= 2 && f[0] == '%' && f[1] != '%' && Conversions(f, args)(0, Base(0, [])) == Stopped(fault)
    ensures Print(f, args) == Failed(fault)
  {
    OneFault(f, PERCENT, Conversions(f, args), Base(0, []), fault);
  }

  const STARS: CString := "%*.*d"

  lemma FirstStar(args: seq<Argument>, w: Argument)
    requires |args| >= 1 && args[0] == w && IsCount(w)
    ensures HeaderAt(STARS, 1, args, Base(0, []))
         == Moved(Header(NO_INDEX, RIGHT_ALIGNED.(width := w.number)), 2, Base(1, [Got(Next, w)]))
  {
    assert FetchAt(STARS, 2, args, Base(0, []), NO_INDEX) == Moved(w, 2, Base(1, [Got(Next, w)]));
    assert FlagsFrom(STARS, 1, RIGHT_ALIGNED) == (RIGHT_ALIGNED, 1);
  }

  lemma SecondStar(args: seq<Argument>, b: Base, p: Argument, spec: Spec)
    requires |args| >= 2 && args[1] == p && IsCount(p) && b.next == 1
    ensures StarPrecisionAt(STARS, 2, args, b, spec)
         == Moved(spec.(precision := p.number), 4, Base(2, b.got + [Got(Next, p)]))
  {
    assert FetchAt(STARS, 4, args, b, NO_INDEX) == Moved(p, 4, Base(2, b.got + [Got(Next, p)]));
  }

  lemma TailIs(f: CString, s: nat, from: nat, a: Argument, spec: Spec, b: Base, target: Target, p: nat, t: char,
               adjusted: Spec, converted: Argument, shown: Argument, final: Spec)
    requires s <= |f| && b.next >= -1 && Length(f, s) == (Some(target), p) && p < |f| && f[p] == t
    requires Adjusted(spec, a) == adjusted && Converted(a, target, t) == converted
    requires Normalized(converted, adjusted, t) == (shown, final) && PrintfFault(shown, final) == None
    ensures TailAt(f, s, from, a, spec, b) == Moved(Field(from, a, shown, final), p + 1, b)
  {
  }

  lemma StarTail(v: Argument, spec: Spec, b: Base)
    requires v.kind == KindInt && -0x8000_0000 <= v.number < 0x8000_0000 && b.next >= -1
    requires !spec.hash && spec.fill == ' '
    ensures TailAt(STARS, 4, 2, v, spec, b) == Moved(Field(2, v, v, spec.(kind := 'd')), 5, b)
  {
    IntStays(v);
    TailIs(STARS, 4, 2, v, spec, b, Own, 4, 'd', spec, v, v, spec.(kind := 'd'));
  }

  lemma StarConversion(w: Argument, p: Argument, v: Argument, args: seq<Argument>)
    requires |args| >= 3 && args[..3] == [w, p, v] && IsCount(w) && IsCount(p)
    requires v.kind == KindInt && -0x8000_0000 <= v.number < 0x8000_0000
    ensures ConversionAt(STARS, 1, args, Base(0, []))
         == Moved(Field(2, v, v, RIGHT_ALIGNED.(width := w.number, precision := p.number, kind := 'd')), 5,
                  Base(3, [Got(Next, w), Got(Next, p), Got(Next, v)]))
  {
    var b1, b2 := Base(1, [Got(Next, w)]), Base(2, [Got(Next, w), Got(Next, p)]);
    var b3 := Base(3, [Got(Next, w), Got(Next, p), Got(Next, v)]);
    var spec := RIGHT_ALIGNED.(width := w.number);
    assert args[0] == args[..3][0] && args[1] == args[..3][1] && args[2] == args[..3][2];
    FirstStar(args, w);
    SecondStar(args, b1, p, spec);
    assert b1.got + [Got(Next, p)] == b2.got && b2.got + [Got(Next, v)] == b3.got;
    assert FetchAt(STARS, 4, args, b2, NO_INDEX) == Moved(v, 4, b3);
    StarTail(v, spec.(precision := p.number), b3);
  }

  /** The width is fetched first, then the precision, then the value. */
  lemma StarsInOrder(w: Argument, p: Argument, v: Argument, more: seq<Argument>)
    requires IsCount(w) && IsCount(p) && v.kind == KindInt && -0x8000_0000 <= v.number < 0x8000_0000
    ensures Print("%*.*d", [w, p, v] + more)
         == Done([Field(2, v, v, RIGHT_ALIGNED.(width := w.number, precision := p.number, kind := 'd'))],
                 Base(3, [Got(Next, w), Got(Next, p), Got(Next, v)]))
  {
    var args, b3 := [w, p, v] + more, Base(3, [Got(Next, w), Got(Next, p), Got(Next, v)]);
    assert args[..3] == [w, p, v];
    StarConversion(w, p, v, args);
    PrintOneField(STARS, args, Field(2, v, v, RIGHT_ALIGNED.(width := w.number, precision := p.number, kind := 'd')), b3);
  }

  lemma WrapStays(n: int, bits: nat, m: nat)
    requires m == Modulus(bits) && InSignedRange(n, m)
    ensures WrapSigned(n, bits) == n
  {
    if n >= 0 {
      Arithmetic.QuotientUnique(n, m, 0, n);
    } else {
      Arithmetic.QuotientUnique(n, m, -1, n + m);
    }
  }

  lemma IntStays(v: Argument)
    requires v.kind == KindInt && -0x8000_0000 <= v.number < 0x8000_0000
    ensures Converted(v, Own, 'd') == v
  {
    Modulus32();
    WrapStays(v.number, 32, 0x1_0000_0000);
    ConvertedIs(v, Own, 'd');
  }

  lemma Modulus32()
    ensures Modulus(32) == 0x1_0000_0000
  {
    assert Modulus(8) == 256;
    assert Modulus(16) == 65536;
    assert Modulus(24) == 16777216;
  }
}
