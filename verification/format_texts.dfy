/** The text that formatting writes. */
module FormatTexts {
  import opened Options
  import opened CountDigits
  import opened ArgLists
  import opened WriteIntegers
  import opened Buffers
  import opened Parts
  import opened FormatterBases
  import opened Rendering
  import opened OutputPieces
  import opened BasicFormatters
  import opened FormatRuns
  import opened FormatSpecs
  import PrintfFormatters
  import PrintfRuns

  /** Every field can be shown. */
  ghost predicate AllShowable(pieces: seq<Piece>, fault: (Argument, Spec) -> Option<Fault>) {
    forall i | 0 <= i < |pieces| && pieces[i].Field? ::
      InRange(pieces[i].shown) && fault(pieces[i].shown, pieces[i].spec) == None
  }

  // ---- every recorded field can be shown -----------------------------------------------------------

  lemma AllShowablePrepend(text: string, field: Piece, rest: seq<Piece>, fault: (Argument, Spec) -> Option<Fault>)
    requires field.Field? && InRange(field.shown) && fault(field.shown, field.spec) == None
    requires AllShowable(rest, fault)
    ensures AllShowable(TextPiece(text) + [field] + rest, fault)
  {
  }

  ghost predicate AllInRange(args: seq<Argument>) {
    forall i | 0 <= i < |args| :: InRange(args[i])
  }

  lemma FetchedInRange(args: seq<Argument>, b: Base, q: FormatterBases.Request)
    requires AllInRange(args) && b.next >= -1 && Fetch(args, b, q).0.Found?
    ensures InRange(Fetch(args, b, q).0.arg)
  {
  }

  lemma ArgInRange(f: CString, s: nat, args: seq<Argument>, b: Base)
    requires s <= |f| && b.next >= -1 && AllInRange(args) && ArgAt(f, s, args, b).Moved?
    ensures InRange(ArgAt(f, s, args, b).value)
  {
    var q := if IsNameStart(CharAt(f, s)) then Name(f[s..NameEnd(f, s + 1)])
             else if DigitAt(f, s) then Index(NumberAt(f, s).value) else Next;
    FetchedInRange(args, b, q);
  }

  lemma FieldShowable(f: CString, s: nat, args: seq<Argument>, b: Base)
    requires s <= |f| && b.next >= -1 && AllInRange(args) && FieldAt(f, s, args, b).Moved?
    ensures var p := FieldAt(f, s, args, b).value;
      p.Field? && p.shown == p.arg && InRange(p.shown) && ShowFault(p.shown, p.spec) == None
  {
    ArgInRange(f, s, args, b);
  }

  /** A reader whose fields can all be shown. */
  ghost predicate ReadsShowable(f: CString, read: Reader, fault: (Argument, Spec) -> Option<Fault>) {
    forall s: nat, b: Base | s < |f| && b.next >= -1 && read(s, b).Moved? ::
      var p := read(s, b).value; p.Field? && InRange(p.shown) && fault(p.shown, p.spec) == None
  }

  lemma {:induction false} ScanShowable(f: CString, special: set<char>, read: Reader, start: nat, s: nat, b: Base,
                                        fault: (Argument, Spec) -> Option<Fault>)
    requires start <= s <= |f| && b.next >= -1 && Advances(f, read) && ReadsShowable(f, read, fault)
    requires Scan(f, special, read, start, s, b).Done?
    ensures AllShowable(Scan(f, special, read, start, s, b).pieces, fault)
    decreases |f| - s
  {
    if s == |f| {
    } else if f[s] !in special {
      ScanShowable(f, special, read, start, s + 1, b, fault);
    } else if CharAt(f, s + 1) == f[s] {
      ScanShowable(f, special, read, s + 2, s + 2, b, fault);
    } else {
      var r := read(s, b);
      ScanShowable(f, special, read, r.pos, r.pos, r.base, fault);
      AllShowablePrepend(f[start..s], r.value, Scan(f, special, read, r.pos, r.pos, r.base).pieces, fault);
    }
  }

  lemma FieldReadShowable(f: CString, args: seq<Argument>, s: nat, b: Base)
    requires s < |f| && b.next >= -1 && AllInRange(args) && Fields(f, args)(s, b).Moved?
    ensures var p := Fields(f, args)(s, b).value; p.Field? && InRange(p.shown) && ShowFault(p.shown, p.spec) == None
  {
    FieldRead(f, args, s, b);
    FieldShowable(f, s + 1, args, b);
  }

  lemma FormatShowable(f: CString, args: seq<Argument>)
    requires AllInRange(args) && Format(f, args).Done?
    ensures AllShowable(Format(f, args).pieces, ShowFault)
  {
    var read := Fields(f, args);
    forall s: nat, b: Base | s < |f| && b.next >= -1 && read(s, b).Moved?
      ensures var p := read(s, b).value; p.Field? && InRange(p.shown) && ShowFault(p.shown, p.spec) == None
    {
      FieldReadShowable(f, args, s, b);
    }
    ScanShowable(f, BRACES, read, 0, 0, Base(0, []), ShowFault);
  }

  // ---- and so for printf, whose conversions keep arguments in range ------------------------------------

  lemma WrapInType(n: int)
    ensures forall bits | bits in {8, 16, 32} :: InType(PrintfFormatters.WrapSigned(n, bits), 32, true)
    ensures forall bits | bits in {1, 8, 16, 32} :: InType(PrintfFormatters.WrapUnsigned(n, bits), 32, false)
    ensures InType(PrintfFormatters.WrapSigned(n, 64), 64, true)
    ensures forall bits | bits in {8, 32, 64} :: InType(PrintfFormatters.WrapUnsigned(n, bits), 64, false)
    ensures -128 <= PrintfFormatters.WrapSigned(n, 8) < 128
  {
    Moduli();
  }

  lemma Moduli()
    ensures PrintfFormatters.Modulus(1) == 2 && PrintfFormatters.Modulus(8) == 256
    ensures PrintfFormatters.Modulus(16) == 65536 && PrintfFormatters.Modulus(32) == TWO_TO_32
    ensures PrintfFormatters.Modulus(64) == TWO_TO_64
  {
    PrintfRuns.Modulus32();
    ModulusDoubles(32, 32);
  }

  lemma DoubleProduct(x: nat, y: nat)
    ensures x * (2 * y) == 2 * (x * y)
  {
  }

  lemma {:induction false} ModulusDoubles(a: nat, b: nat)
    ensures PrintfFormatters.Modulus(a + b) == PrintfFormatters.Modulus(a) * PrintfFormatters.Modulus(b)
  {
    if b > 0 {
      ModulusDoubles(a, b - 1);
      assert PrintfFormatters.Modulus(a + b) == 2 * PrintfFormatters.Modulus(a + (b - 1));
      DoubleProduct(PrintfFormatters.Modulus(a), PrintfFormatters.Modulus(b - 1));
    }
  }

  lemma ConvertedInRange(a: Argument, target: PrintfFormatters.Target, presentation: char)
    requires InRange(a)
    ensures InRange(PrintfFormatters.Converted(a, target, presentation))
  {
    WrapInType(a.number);
  }

  lemma NormalizedInRange(a: Argument, spec: Spec, presentation: char)
    requires InRange(a)
    ensures InRange(PrintfFormatters.Normalized(a, spec, presentation).0)
  {
    WrapInType(a.number);
  }

  lemma TailShowable(f: CString, s: nat, from: nat, a: Argument, spec: Spec, b: Base)
    requires s <= |f| && b.next >= -1 && InRange(a) && PrintfFormatters.TailAt(f, s, from, a, spec, b).Moved?
    ensures var p := PrintfFormatters.TailAt(f, s, from, a, spec, b).value;
      p.Field? && InRange(p.shown) && PrintfFault(p.shown, p.spec) == None
  {
    var (target, p) := PrintfFormatters.Length(f, s);
    var shown := if target.None? then a else PrintfFormatters.Converted(a, target.value, f[p]);
    if target.Some? {
      ConvertedInRange(a, target.value, f[p]);
    }
    NormalizedInRange(shown, PrintfFormatters.Adjusted(spec, a), f[p]);
  }

  lemma ConversionShowable(f: CString, s: nat, args: seq<Argument>, b: Base)
    requires s <= |f| && b.next >= -1 && AllInRange(args) && PrintfFormatters.ConversionAt(f, s, args, b).Moved?
    ensures var p := PrintfFormatters.ConversionAt(f, s, args, b).value;
      p.Field? && InRange(p.shown) && PrintfFault(p.shown, p.spec) == None
  {
    var h := PrintfFormatters.HeaderAt(f, s, args, b);
    var x := PrintfFormatters.StarPrecisionAt(f, h.pos, args, h.base, h.value.spec);
    ArgumentShowable(f, x.pos, args, x.base, h.value.argIndex, x.value);
  }

  lemma ArgumentShowable(f: CString, s: nat, args: seq<Argument>, b: Base, argIndex: nat, spec: Spec)
    requires s <= |f| && b.next >= -1 && AllInRange(args)
    requires PrintfFormatters.ArgumentAt(f, s, args, b, argIndex, spec).Moved?
    ensures var p := PrintfFormatters.ArgumentAt(f, s, args, b, argIndex, spec).value;
      p.Field? && InRange(p.shown) && PrintfFault(p.shown, p.spec) == None
  {
    FetchedInRange(args, b, PrintfFormatters.RequestFor(argIndex));
    var r := PrintfFormatters.FetchAt(f, s, args, b, argIndex);
    TailShowable(f, r.pos, |b.got|, r.value, spec, r.base);
  }

  lemma ConversionReadShowable(f: CString, args: seq<Argument>, s: nat, b: Base)
    requires s < |f| && b.next >= -1 && AllInRange(args) && PrintfFormatters.Conversions(f, args)(s, b).Moved?
    ensures var p := PrintfFormatters.Conversions(f, args)(s, b).value;
      p.Field? && InRange(p.shown) && PrintfFault(p.shown, p.spec) == None
  {
    PrintfFormatters.ConversionRead(f, args, s, b);
    ConversionShowable(f, s + 1, args, b);
  }

  lemma PrintShowable(f: CString, args: seq<Argument>)
    requires AllInRange(args) && PrintfFormatters.Print(f, args).Done?
    ensures AllShowable(PrintfFormatters.Print(f, args).pieces, PrintfFault)
  {
    var read := PrintfFormatters.Conversions(f, args);
    forall s: nat, b: Base | s < |f| && b.next >= -1 && read(s, b).Moved?
      ensures var p := read(s, b).value; p.Field? && InRange(p.shown) && PrintfFault(p.shown, p.spec) == None
    {
      ConversionReadShowable(f, args, s, b);
    }
    ScanShowable(f, PrintfFormatters.PERCENT, read, 0, 0, Base(0, []), PrintfFault);
  }

  // ---- writing -------------------------------------------------------------------------------------

  datatype Dialect = Brace | Printf

  function FaultIn(d: Dialect): (Argument, Spec) -> Option<Fault> {
    if d == Brace then ShowFault else PrintfFault
  }

  /** What a piece is written as. */
  function PieceParts(p: Piece, d: Dialect, doubles: Shower): seq<Part> {
    match p
    case Text(t) => [AsText(t)]
    case Field(_, _, shown, spec) =>
      if d == Brace then [ShowPart(shown, spec, doubles)] else PrintfParts(shown, spec, doubles)
  }

  function PiecesParts(pieces: seq<Piece>, d: Dialect, doubles: Shower): seq<Part> {
    if pieces == [] then []
    else PiecesParts(pieces[..|pieces| - 1], d, doubles) + PieceParts(pieces[|pieces| - 1], d, doubles)
  }

  lemma PiecesPartsStep(pieces: seq<Piece>, i: nat, d: Dialect, doubles: Shower)
    requires i < |pieces|
    ensures PiecesParts(pieces[..i + 1], d, doubles)
         == PiecesParts(pieces[..i], d, doubles) + PieceParts(pieces[i], d, doubles)
  {
    assert pieces[..i + 1][..i] == pieces[..i];
  }

  /** Appends a piece. */
  method ShowPiece(buffer: MemoryBuffer, p: Piece, d: Dialect, sep: string, doubles: Shower)
    requires buffer.Valid() && (p.Field? ==> InRange(p.shown) && FaultIn(d)(p.shown, p.spec) == None)
    modifies buffer, buffer.ptr
    ensures buffer.Valid() && (buffer.ptr == old(buffer.ptr) || fresh(buffer.ptr))
    ensures Appends(old(buffer.Contents()), old(buffer.Room()), buffer.Contents(), buffer.Room(),
                    PieceParts(p, d, doubles), sep)
  {
    match p
    case Text(t) => ShowRaw(buffer, t, sep);
    case Field(_, _, shown, spec) =>
      if d == Brace {
        Show(buffer, shown, spec, sep, doubles);
      } else {
        ShowPrintf(buffer, shown, spec, sep, doubles);
      }
  }

  /** Appends all pieces. */
  method ShowPieces(buffer: MemoryBuffer, pieces: seq<Piece>, d: Dialect, sep: string, doubles: Shower)
    requires buffer.Valid() && AllShowable(pieces, FaultIn(d))
    modifies buffer, buffer.ptr
    ensures buffer.Valid()
    ensures Appends(old(buffer.Contents()), old(buffer.Room()), buffer.Contents(), buffer.Room(),
                    PiecesParts(pieces, d, doubles), sep)
  {
    ghost var before, r := buffer.Contents(), buffer.Room();
    NoParts(before, r, sep);
    for i := 0 to |pieces|
      invariant buffer.Valid() && (buffer.ptr == old(buffer.ptr) || fresh(buffer.ptr))
      invariant Appends(before, r, buffer.Contents(), buffer.Room(), PiecesParts(pieces[..i], d, doubles), sep)
    {
      ghost var middle, r1 := buffer.Contents(), buffer.Room();
      PiecesPartsStep(pieces, i, d, doubles);
      ShowPiece(buffer, pieces[i], d, sep, doubles);
      AppendsJoin(before, r, middle, r1, buffer.Contents(), buffer.Room(),
                  PiecesParts(pieces[..i], d, doubles), PieceParts(pieces[i], d, doubles), sep);
    }
    assert pieces[..|pieces|] == pieces;
  }

  /** What a successful run appends, or its fault. */
  ghost predicate Wrote(o: Outcome, fault: Option<Fault>, before: string, r: Space, after: string, r': Space,
                        d: Dialect, sep: string, doubles: Shower) {
    match o
    case Done(pieces, _) => fault == None && Appends(before, r, after, r', PiecesParts(pieces, d, doubles), sep)
    case Failed(e) => fault == Some(e)
  }

  /** What a run has recorded agrees with its outcome, and can be shown. */
  ghost predicate Recorded(o: Outcome, fault: Option<Fault>, pieces: seq<Piece>, d: Dialect) {
    match o
    case Done(ps, _) => fault == None && pieces == ps && AllShowable(pieces, FaultIn(d))
    case Failed(e) => fault == Some(e)
  }

  method RunBraces(f: CString, args: seq<Argument>) returns (fault: Option<Fault>, pieces: seq<Piece>, ghost o: Outcome)
    requires AllInRange(args)
    ensures o == Format(f, args) && Recorded(o, fault, pieces, Brace)
  {
    var formatter := new BasicFormatter(args);
    fault := formatter.FormatAll(f);
    pieces := formatter.written;
    o := Format(f, args);
    if o.Done? {
      FormatShowable(f, args);
      assert [] + o.pieces == o.pieces;
    }
  }

  method RunPrintf(f: CString, args: seq<Argument>) returns (fault: Option<Fault>, pieces: seq<Piece>, ghost o: Outcome)
    requires AllInRange(args)
    ensures o == PrintfFormatters.Print(f, args) && Recorded(o, fault, pieces, Printf)
  {
    var formatter := new PrintfFormatters.PrintfFormatter(args);
    fault := formatter.FormatAll(f);
    pieces := formatter.written;
    o := PrintfFormatters.Print(f, args);
    if o.Done? {
      PrintShowable(f, args);
      assert [] + o.pieces == o.pieces;
    }
  }

  /** Brace formatting into a buffer. The source shows each piece as soon as it is read. */
  method WriteFormatted(buffer: MemoryBuffer, f: CString, args: seq<Argument>, sep: string, doubles: Shower)
    returns (fault: Option<Fault>)
    requires buffer.Valid() && AllInRange(args)
    modifies buffer, buffer.ptr
    ensures buffer.Valid()
    ensures Wrote(Format(f, args), fault, old(buffer.Contents()), old(buffer.Room()), buffer.Contents(), buffer.Room(),
                  Brace, sep, doubles)
  {
    var pieces;
    ghost var o;
    fault, pieces, o := RunBraces(f, args);
    if fault.None? {
      ShowPieces(buffer, pieces, Brace, sep, doubles);
    }
  }

  /** Printf formatting into a buffer. */
  method WritePrintf(buffer: MemoryBuffer, f: CString, args: seq<Argument>, sep: string, doubles: Shower)
    returns (fault: Option<Fault>)
    requires buffer.Valid() && AllInRange(args)
    modifies buffer, buffer.ptr
    ensures buffer.Valid()
    ensures Wrote(PrintfFormatters.Print(f, args), fault, old(buffer.Contents()), old(buffer.Room()),
                  buffer.Contents(), buffer.Room(), Printf, sep, doubles)
  {
    var pieces;
    ghost var o;
    fault, pieces, o := RunPrintf(f, args);
    if fault.None? {
      ShowPieces(buffer, pieces, Printf, sep, doubles);
    }
  }

  // ---- brace formatting stays in place -------------------------------------------------------------

  lemma FlagsLeaveSizes(f: CString, s: nat, arg: Argument)
    requires s <= |f| && FlagsAt(f, s, arg).Go?
    ensures FlagsAt(f, s, arg).value.precision == -1
  {
  }

  lemma SizesPrecision(f: CString, s: nat, arg: Argument, args: seq<Argument>, b: Base, spec: Spec)
    requires s <= |f| && b.next >= -1 && spec.precision == -1 && SizesAt(f, s, arg, args, b, spec).Moved?
    ensures TakesPrecision(arg) || SizesAt(f, s, arg, args, b, spec).value.precision == -1
  {
  }

  lemma SpecPrecision(f: CString, s: nat, arg: Argument, args: seq<Argument>, b: Base)
    requires s <= |f| && b.next >= -1 && SpecAt(f, s, arg, args, b).Moved?
    ensures TakesPrecision(arg) || SpecAt(f, s, arg, args, b).value.precision == -1
  {
    if CharAt(f, s) == ':' {
      FlagsLeaveSizes(f, s + 1, arg);
      var flags := FlagsAt(f, s + 1, arg);
      SizesPrecision(f, flags.pos, arg, args, b, flags.value);
    }
  }

  /** The brace parser's refusal of a precision, as a fault of the field. */
  function Precise(a: Argument, spec: Spec): Option<Fault> {
    if TakesPrecision(a) || spec.precision == -1 then None else Some(PrecisionNotAllowed)
  }

  lemma FieldPrecise(f: CString, s: nat, args: seq<Argument>, b: Base)
    requires s <= |f| && b.next >= -1 && AllInRange(args) && FieldAt(f, s, args, b).Moved?
    ensures var p := FieldAt(f, s, args, b).value; p.Field? && InRange(p.shown) && Precise(p.shown, p.spec) == None
  {
    ArgInRange(f, s, args, b);
    var a := ArgAt(f, s, args, b);
    SpecPrecision(f, a.pos, a.value, args, a.base);
  }

  lemma FieldReadPrecise(f: CString, args: seq<Argument>, s: nat, b: Base)
    requires s < |f| && b.next >= -1 && AllInRange(args) && Fields(f, args)(s, b).Moved?
    ensures var p := Fields(f, args)(s, b).value; p.Field? && InRange(p.shown) && Precise(p.shown, p.spec) == None
  {
    FieldRead(f, args, s, b);
    FieldPrecise(f, s + 1, args, b);
  }

  lemma FormatPrecise(f: CString, args: seq<Argument>)
    requires AllInRange(args) && Format(f, args).Done?
    ensures AllShowable(Format(f, args).pieces, Precise)
  {
    var read := Fields(f, args);
    forall s: nat, b: Base | s < |f| && b.next >= -1 && read(s, b).Moved?
      ensures var p := read(s, b).value; p.Field? && InRange(p.shown) && Precise(p.shown, p.spec) == None
    {
      FieldReadPrecise(f, args, s, b);
    }
    ScanShowable(f, BRACES, read, 0, 0, Base(0, []), Precise);
  }

  /** A C string shown as a pointer. */
  predicate ShownAsPointer(p: Piece) {
    p.Field? && p.shown.kind == KindCString && p.spec.kind == 'p'
  }

  lemma PrecisePieceStays(p: Piece, doubles: Shower)
    requires p.Field? ==> Precise(p.shown, p.spec) == None
    requires !ShownAsPointer(p)
    ensures NoneMoves(PieceParts(p, Brace, doubles))
  {
  }

  lemma {:induction false} PrecisePiecesStay(pieces: seq<Piece>, doubles: Shower)
    requires AllShowable(pieces, Precise) && forall i | 0 <= i < |pieces| :: !ShownAsPointer(pieces[i])
    ensures NoneMoves(PiecesParts(pieces, Brace, doubles))
  {
    if pieces != [] {
      PrecisePiecesStay(pieces[..|pieces| - 1], doubles);
      PrecisePieceStays(pieces[|pieces| - 1], doubles);
    }
  }

  /**
   * Whatever the buffer holds and has room for, brace formatting writes its whole text, because the parser
   * refuses a precision for integers; only a C string shown as a pointer gets past it.
   */
  lemma BracesStayInPlace(f: CString, args: seq<Argument>, r: Space, sep: string, doubles: Shower)
    requires AllInRange(args) && Format(f, args).Done?
    requires forall i | 0 <= i < |Format(f, args).pieces| :: !ShownAsPointer(Format(f, args).pieces[i])
    ensures InPlace(r, PiecesParts(Format(f, args).pieces, Brace, doubles), sep)
  {
    FormatPrecise(f, args);
    PrecisePiecesStay(Format(f, args).pieces, doubles);
    NothingMoves(r, PiecesParts(Format(f, args).pieces, Brace, doubles), sep);
  }

  // ---- a single field ------------------------------------------------------------------------------

  predicate PlainInteger(a: Argument) {
    a.kind in {KindInt, KindUInt, KindLongLong, KindULongLong}
  }

  /** Why a field is refused, if it is: its specification does not suit the argument, or it cannot be shown. */
  function FieldFault(a: Argument, spec: Spec): Option<Fault> {
    if SpecFault(spec, a).Some? then SpecFault(spec, a) else ShowFault(a, spec)
  }

  function FieldString(spec: Spec): string {
    "{" + (":" + (SpecText(spec) + "}"))
  }

  lemma FieldStart(f: CString, spec: Spec)
    requires f == FieldString(spec)
    ensures |f| >= 2 && f[0] == '{' && f[1] == ':'
  {
  }

  lemma OnlyArgument(f: CString, a: Argument, spec: Spec)
    requires f == FieldString(spec)
    ensures Ahead(f, 1, ":" + (SpecText(spec) + "}"))
    ensures ArgAt(f, 1, [a], Base(0, [])) == Moved(a, 1, Base(1, [Got(Next, a)]))
  {
    assert f[1..] == ":" + (SpecText(spec) + "}");
    assert CharAt(f, 1) == f[1..][0];
  }

  /** Nothing stands behind the field, so an empty specification keeps its alignment too. */
  lemma NothingBehind(f: CString, spec: Spec)
    requires Writable(spec) && f == FieldString(spec)
    ensures SpecText(spec) == "" ==> |f| == 3 && Kept(f, 1, spec) == spec
  {
  }

  lemma OnlySpec(f: CString, a: Argument, spec: Spec, b: Base)
    requires Writable(spec) && f == FieldString(spec) && b.next >= -1
    requires Ahead(f, 1, ":" + (SpecText(spec) + "}"))
    ensures SpecAt(f, 1, a, [a], b)
         == if SpecFault(spec, a).Some? then Stopped(SpecFault(spec, a).value) else Moved(spec, |f|, b)
  {
    SpecReadsBack(f, 1, a, [a], b, spec);
    NothingBehind(f, spec);
  }

  lemma FieldIs(f: CString, s: nat, args: seq<Argument>, b0: Base, a: Argument, p: nat, b: Base, r: Traced<Spec>)
    requires s <= p <= |f| && b0.next >= -1 && b.next >= -1 && ArgAt(f, s, args, b0) == Moved(a, p, b)
    requires SpecAt(f, p, a, args, b) == r
    ensures FieldAt(f, s, args, b0)
         == if r.Stopped? then Stopped(r.fault)
            else if ShowFault(a, r.value).Some? then Stopped(ShowFault(a, r.value).value)
            else Moved(Field(|b0.got|, a, a, r.value), r.pos, r.base)
  {
  }

  /** A format string that is one field, for every specification: shown as it asks, or refused. */
  lemma BracedField(f: CString, a: Argument, spec: Spec)
    requires Writable(spec) && f == FieldString(spec)
    ensures Format(f, [a])
         == if FieldFault(a, spec).Some? then Failed(FieldFault(a, spec).value)
            else Done([Field(0, a, a, spec)], Base(1, [Got(Next, a)]))
  {
    var b := Base(1, [Got(Next, a)]);
    FieldStart(f, spec);
    OnlyArgument(f, a, spec);
    OnlySpec(f, a, spec, b);
    FieldIs(f, 1, [a], Base(0, []), a, 1, b, SpecAt(f, 1, a, [a], b));
    match FieldFault(a, spec)
    case Some(fault) => FormatOneFault(f, [a], fault);
    case None => FormatOneField(f, [a], Field(0, a, a, spec), b);
  }

  lemma OneFieldParts(p: Piece, d: Dialect, doubles: Shower)
    ensures PiecesParts([p], d, doubles) == PieceParts(p, d, doubles)
  {
    assert [p][..0] == [] && [] + PieceParts(p, d, doubles) == PieceParts(p, d, doubles);
  }

  lemma IntegerNeverMoves(a: Argument, spec: Spec, r: Space, sep: string, doubles: Shower)
    requires PlainInteger(a) && Writable(spec) && SpecFault(spec, a) == None
    ensures InPlace(r, [ShowPart(a, spec, doubles)], sep)
    ensures PartsText([ShowPart(a, spec, doubles)], sep) == IntText(a.number, spec, sep)
  {
    OnePart(r, ShowPart(a, spec, doubles), sep);
    NothingMoves(r, [ShowPart(a, spec, doubles)], sep);
  }

  /** A braced integer comes out as `write_int` lays it out, for every specification that suits it. */
  lemma BracedIntegerText(f: CString, a: Argument, spec: Spec, r: Space, sep: string, doubles: Shower)
    requires PlainInteger(a) && Writable(spec) && FieldFault(a, spec) == None && f == FieldString(spec)
    ensures Format(f, [a]) == Done([Field(0, a, a, spec)], Base(1, [Got(Next, a)]))
    ensures var parts := PiecesParts([Field(0, a, a, spec)], Brace, doubles);
      InPlace(r, parts, sep) && PartsText(parts, sep) == IntText(a.number, spec, sep)
  {
    BracedField(f, a, spec);
    OneFieldParts(Field(0, a, a, spec), Brace, doubles);
    IntegerNeverMoves(a, spec, r, sep, doubles);
  }

  /** Every other specification is refused: for a fault of its own, or for a type that is none of an integer. */
  lemma BracedIntegerRefused(f: CString, a: Argument, spec: Spec)
    requires PlainInteger(a) && Writable(spec) && f == FieldString(spec)
    ensures SpecFault(spec, a).Some? ==> Format(f, [a]) == Failed(SpecFault(spec, a).value)
    ensures SpecFault(spec, a).None? && spec.kind !in {'\0', 'd', 'n', 'x', 'X', 'o', 'b', 'B'} ==>
      Format(f, [a]) == Failed(UnknownType)
  {
    BracedField(f, a, spec);
  }
}
