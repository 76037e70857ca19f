/** Brace formatting: replacement fields, their specifications and the text between them. */
module BasicFormatters {
  import opened Options
  import opened ArgLists
  import opened FormatIntegers
  import opened WriteIntegers
  import opened FormatterBases
  import opened Rendering
  import opened OutputPieces

  predicate IsNameStart(c: char) {
    'a' <= c <= 'z' || 'A' <= c <= 'Z' || c == '_'
  }

  // ---- naming an argument --------------------------------------------------------------------------

  function NameEnd(f: CString, s: nat): (e: nat)
    requires s <= |f|
    ensures s <= e <= |f|
    decreases |f| - s
  {
    if IsNameStart(CharAt(f, s)) || DigitAt(f, s) then NameEnd(f, s + 1) else s
  }

  /** After an argument index only `}` or `:` may stand; anything else hides the real fault. */
  function IndexFault(f: CString, s: nat, fault: Fault): Fault
    requires s <= |f|
  {
    if CharAt(f, s) != '}' && CharAt(f, s) != ':' then InvalidFormat else fault
  }

  function ArgAt(f: CString, s: nat, args: seq<Argument>, b: Base): (r: Traced<Argument>)
    requires s <= |f| && b.next >= -1
    ensures r.Moved? ==> s <= r.pos <= |f| && r.base.next >= -1
  {
    if IsNameStart(CharAt(f, s)) then
      var e := NameEnd(f, s + 1);
      match Fetch(args, b, Name(f[s..e]))
      case (Found(a), b1) => Moved(a, e, b1)
      case (Denied(fault), _) => Stopped(fault)
    else if DigitAt(f, s) then
      match NumberAt(f, s)
      case Fail(fault) => Stopped(fault)
      case Go(i, e) =>
        match Fetch(args, b, Index(i))
        case (Found(a), b1) => Moved(a, e, b1)
        case (Denied(fault), _) => Stopped(IndexFault(f, e, fault))
    else
      match Fetch(args, b, Next)
      case (Found(a), b1) => Moved(a, s, b1)
      case (Denied(fault), _) => Stopped(IndexFault(f, s, fault))
  }

  // ---- the parts of a specification ----------------------------------------------------------------

  const PLAIN := Spec(0, ' ', AlignDefault, -1, false, false, false, false, NUL)

  function AlignOf(c: char): Alignment {
    match c
    case '<' => AlignLeft
    case '>' => AlignRight
    case '=' => AlignNumeric
    case '^' => AlignCenter
    case _ => AlignDefault
  }

  function NumericAlign(align: Alignment, arg: Argument): Option<Fault> {
    if align == AlignNumeric && !IsNumeric(arg) then Some(NeedsNumeric) else None
  }

  /**
   * An alignment, with a fill in front of it or not. The character after the specification's first is
   * looked at even when that first one closes the field, and then the alignment is kept all the same.
   */
  function AlignAt(f: CString, s: nat, arg: Argument): (r: Step<Spec>)
    requires s <= |f|
    ensures r.Go? ==> s <= r.pos <= |f|
  {
    if CharAt(f, s) == NUL then Go(PLAIN, s)
    else if AlignOf(CharAt(f, s + 1)) != AlignDefault then
      var align := AlignOf(CharAt(f, s + 1));
      if CharAt(f, s) == '}' then Go(PLAIN.(align := align), s)
      else if CharAt(f, s) == '{' then Fail(InvalidFill)
      else if NumericAlign(align, arg).Some? then Fail(NeedsNumeric)
      else Go(PLAIN.(align := align, fill := CharAt(f, s)), s + 2)
    else
      var align := AlignOf(CharAt(f, s));
      if align == AlignDefault then Go(PLAIN, s)
      else if NumericAlign(align, arg).Some? then Fail(NeedsNumeric)
      else Go(PLAIN.(align := align), s + 1)
  }

  function SignAt(f: CString, s: nat, arg: Argument, spec: Spec): (r: Step<Spec>)
    requires s <= |f|
    ensures r.Go? ==> s <= r.pos <= |f|
  {
    if CharAt(f, s) !in {'+', '-', ' '} then Go(spec, s)
    else if !IsNumeric(arg) then Fail(NeedsNumeric)
    else if arg.kind in {KindUInt, KindULongLong} then Fail(NeedsSigned)
    else if CharAt(f, s) == '+' then Go(spec.(sign := true, plus := true), s + 1)
    else if CharAt(f, s) == '-' then Go(spec.(minus := true), s + 1)
    else Go(spec.(sign := true), s + 1)
  }

  function HashAt(f: CString, s: nat, arg: Argument, spec: Spec): (r: Step<Spec>)
    requires s <= |f|
    ensures r.Go? ==> s <= r.pos <= |f|
  {
    if CharAt(f, s) != '#' then Go(spec, s)
    else if !IsNumeric(arg) then Fail(NeedsNumeric)
    else Go(spec.(hash := true), s + 1)
  }

  function ZeroAt(f: CString, s: nat, arg: Argument, spec: Spec): (r: Step<Spec>)
    requires s <= |f|
    ensures r.Go? ==> s <= r.pos <= |f|
  {
    if CharAt(f, s) != '0' then Go(spec, s)
    else if !IsNumeric(arg) then Fail(NeedsNumeric)
    else Go(spec.(align := AlignNumeric, fill := '0'), s + 1)
  }

  /** The value of an argument used as a width or a precision. */
  function DynamicNumber(a: Argument, negative: Fault, notInteger: Fault): (r: Step<nat>)
    ensures r.Go? ==> r.value <= INT_MAX
  {
    if a.kind !in {KindInt, KindUInt, KindLongLong, KindULongLong} then Fail(notInteger)
    else if a.number < 0 then Fail(negative)
    else if a.number > INT_MAX then Fail(NumberTooBig)
    else Go(a.number, 0)
  }

  /** A nested field `{...}`, with `s` behind its opening brace. */
  function NestedAt(f: CString, s: nat, args: seq<Argument>, b: Base, negative: Fault, notInteger: Fault): (r: Traced<nat>)
    requires s <= |f| && b.next >= -1
    ensures r.Moved? ==> s < r.pos <= |f| && r.base.next >= -1
  {
    match ArgAt(f, s, args, b)
    case Stopped(fault) => Stopped(fault)
    case Moved(a, p, b1) =>
      if CharAt(f, p) != '}' then Stopped(InvalidFormat)
      else
        match DynamicNumber(a, negative, notInteger)
        case Fail(fault) => Stopped(fault)
        case Go(n, _) => Moved(n, p + 1, b1)
  }

  function WidthAt(f: CString, s: nat, args: seq<Argument>, b: Base, spec: Spec): (r: Traced<Spec>)
    requires s <= |f| && b.next >= -1
    ensures r.Moved? ==> s <= r.pos <= |f| && r.base.next >= -1
  {
    if DigitAt(f, s) then
      match NumberAt(f, s)
      case Fail(fault) => Stopped(fault)
      case Go(n, p) => Moved(spec.(width := n), p, b)
    else if CharAt(f, s) == '{' then
      match NestedAt(f, s + 1, args, b, NegativeWidth, WidthNotInteger)
      case Stopped(fault) => Stopped(fault)
      case Moved(n, p, b1) => Moved(spec.(width := n), p, b1)
    else Moved(spec, s, b)
  }

  predicate TakesPrecision(arg: Argument) {
    !IsInteger(arg) && arg.kind != KindPointer
  }

  /** What stands behind the dot. */
  function PrecisionValueAt(f: CString, s: nat, args: seq<Argument>, b: Base): (r: Traced<nat>)
    requires s <= |f| && b.next >= -1
    ensures r.Moved? ==> s < r.pos <= |f| && r.base.next >= -1
  {
    if DigitAt(f, s) then
      match NumberAt(f, s)
      case Fail(fault) => Stopped(fault)
      case Go(n, p) => Moved(n, p, b)
    else if CharAt(f, s) == '{' then NestedAt(f, s + 1, args, b, NegativePrecision, PrecisionNotInteger)
    else Stopped(MissingPrecision)
  }

  function PrecisionAt(f: CString, s: nat, arg: Argument, args: seq<Argument>, b: Base, spec: Spec): (r: Traced<Spec>)
    requires s <= |f| && b.next >= -1
    ensures r.Moved? ==> s <= r.pos <= |f| && r.base.next >= -1
  {
    if CharAt(f, s) != '.' then Moved(spec, s, b)
    else
      match PrecisionValueAt(f, s + 1, args, b)
      case Stopped(fault) => Stopped(fault)
      case Moved(n, p, b1) =>
        if TakesPrecision(arg) then Moved(spec.(precision := n), p, b1) else Stopped(PrecisionNotAllowed)
  }

  /** The presentation type, and the brace that closes the field. */
  function KindAt(f: CString, s: nat, spec: Spec): (r: Step<Spec>)
    requires s <= |f|
    ensures r.Go? ==> s < r.pos <= |f|
  {
    var typed := if CharAt(f, s) != '}' && CharAt(f, s) != NUL then Go(spec.(kind := CharAt(f, s)), s + 1) else Go(spec, s);
    if CharAt(f, typed.pos) != '}' then Fail(MissingBrace) else Go(typed.value, typed.pos + 1)
  }

  /** The parts that depend only on the text and the argument. */
  function FlagsAt(f: CString, s: nat, arg: Argument): (r: Step<Spec>)
    requires s <= |f|
    ensures r.Go? ==> s <= r.pos <= |f|
  {
    match AlignAt(f, s, arg)
    case Fail(fault) => Fail(fault)
    case Go(spec, p) =>
      match SignAt(f, p, arg, spec)
      case Fail(fault) => Fail(fault)
      case Go(spec, p) =>
        match HashAt(f, p, arg, spec)
        case Fail(fault) => Fail(fault)
        case Go(spec, p) => ZeroAt(f, p, arg, spec)
  }

  /** The width and the precision, which may fetch arguments. */
  function SizesAt(f: CString, s: nat, arg: Argument, args: seq<Argument>, b: Base, spec: Spec): (r: Traced<Spec>)
    requires s <= |f| && b.next >= -1
    ensures r.Moved? ==> s <= r.pos <= |f| && r.base.next >= -1
  {
    match WidthAt(f, s, args, b, spec)
    case Stopped(fault) => Stopped(fault)
    case Moved(spec, p, b1) => PrecisionAt(f, p, arg, args, b1, spec)
  }

  /** The rest of a replacement field, from behind the argument to behind the closing brace. */
  function SpecAt(f: CString, s: nat, arg: Argument, args: seq<Argument>, b: Base): (r: Traced<Spec>)
    requires s <= |f| && b.next >= -1
    ensures r.Moved? ==> s < r.pos <= |f| && r.base.next >= -1
  {
    if CharAt(f, s) != ':' then
      if CharAt(f, s) != '}' then Stopped(MissingBrace) else Moved(PLAIN, s + 1, b)
    else
      match FlagsAt(f, s + 1, arg)
      case Fail(fault) => Stopped(fault)
      case Go(spec, p) =>
        match SizesAt(f, p, arg, args, b, spec)
        case Stopped(fault) => Stopped(fault)
        case Moved(spec, p, b1) =>
          match KindAt(f, p, spec)
          case Fail(fault) => Stopped(fault)
          case Go(spec, p) => Moved(spec, p, b1)
  }

  // ---- the whole format string ---------------------------------------------------------------------

  /** The outcome of a replacement field, with `s` behind its opening brace; showing it may still fail. */
  function FieldAt(f: CString, s: nat, args: seq<Argument>, b: Base): (r: Traced<Piece>)
    requires s <= |f| && b.next >= -1
    ensures r.Moved? ==> s < r.pos <= |f| && r.base.next >= -1
  {
    match ArgAt(f, s, args, b)
    case Stopped(fault) => Stopped(fault)
    case Moved(arg, p, b1) =>
      match SpecAt(f, p, arg, args, b1)
      case Stopped(fault) => Stopped(fault)
      case Moved(spec, p, b2) =>
        match ShowFault(arg, spec)
        case Some(fault) => Stopped(fault)
        case None => Moved(Field(|b.got|, arg, arg, spec), p, b2)
  }

  const BRACES: set<char> := {'{', '}'}

  /** A brace on its own begins a field, or is one too many. */
  function Fields(f: CString, args: seq<Argument>): (read: Reader)
    ensures Advances(f, read)
    ensures forall s: nat, b: Base {:trigger Asked(s, b)} ::
              Asked(s, b) && s < |f| && b.next >= -1 ==>
                read(s, b) == if f[s] == '}' then Stopped(UnmatchedBrace) else FieldAt(f, s + 1, args, b)
  {
    (s: nat, b: Base) =>
      if s >= |f| || b.next < -1 then Stopped(InvalidFormat)
      else if f[s] == '}' then Stopped(UnmatchedBrace)
      else FieldAt(f, s + 1, args, b)
  }

  function Format(f: CString, args: seq<Argument>): Outcome {
    Scan(f, BRACES, Fields(f, args), 0, 0, Base(0, []))
  }

  class BasicFormatter {
    const base: FormatterBase
    /** What has gone to the writer. */
    var written: seq<Piece>

    constructor (args: seq<Argument>)
      ensures fresh(base) && base.Valid() && base.args == args && base.State() == Base(0, []) && written == []
    {
      base := new FormatterBase(args);
      written := [];
    }

    method ParseArgIndex(f: CString, s: nat) returns (r: Traced<Argument>)
      requires s <= |f| && !IsNameStart(CharAt(f, s)) && base.Valid()
      modifies base
      ensures r == ArgAt(f, s, base.args, old(base.State()))
      ensures base.Valid() && (r.Moved? ==> base.State() == r.base)
    {
      var p := s;
      var got;
      if !DigitAt(f, s) {
        got := base.NextArg();
      } else {
        var n := ParseNumber(f, s);
        if n.Fail? {
          return Stopped(n.fault);
        }
        p := n.pos;
        got := base.GetArg(n.value);
      }
      match got
      case Found(a) => return Moved(a, p, base.State());
      case Denied(fault) => return Stopped(IndexFault(f, p, fault));
    }

    method ParseArgName(f: CString, s: nat) returns (r: Traced<Argument>)
      requires s <= |f| && IsNameStart(CharAt(f, s)) && base.Valid()
      modifies base
      ensures r == ArgAt(f, s, base.args, old(base.State()))
      ensures base.Valid() && (r.Moved? ==> base.State() == r.base)
    {
      var p := s + 1;
      while IsNameStart(CharAt(f, p)) || DigitAt(f, p)
        invariant s < p <= |f| && NameEnd(f, p) == NameEnd(f, s + 1)
        decreases |f| - p
      {
        p := p + 1;
      }
      var got := base.GetNamed(f[s..p]);
      match got
      case Found(a) => return Moved(a, p, base.State());
      case Denied(fault) => return Stopped(fault);
    }

    /** The argument index or name at the head of a field. */
    method ParseArg(f: CString, s: nat) returns (r: Traced<Argument>)
      requires s <= |f| && base.Valid()
      modifies base
      ensures r == ArgAt(f, s, base.args, old(base.State()))
      ensures base.Valid() && (r.Moved? ==> base.State() == r.base)
    {
      if IsNameStart(CharAt(f, s)) {
        r := ParseArgName(f, s);
      } else {
        r := ParseArgIndex(f, s);
      }
    }

    method ParseNested(f: CString, s: nat, negative: Fault, notInteger: Fault) returns (r: Traced<nat>)
      requires s <= |f| && base.Valid()
      modifies base
      ensures r == NestedAt(f, s, base.args, old(base.State()), negative, notInteger)
      ensures base.Valid() && (r.Moved? ==> base.State() == r.base)
    {
      var a := ParseArg(f, s);
      if a.Stopped? {
        return Stopped(a.fault);
      }
      if CharAt(f, a.pos) != '}' {
        return Stopped(InvalidFormat);
      }
      match DynamicNumber(a.value, negative, notInteger)
      case Fail(fault) => return Stopped(fault);
      case Go(n, _) => return Moved(n, a.pos + 1, a.base);
    }

    method ParseWidth(f: CString, s: nat, spec: Spec) returns (r: Traced<Spec>)
      requires s <= |f| && base.Valid()
      modifies base
      ensures r == WidthAt(f, s, base.args, old(base.State()), spec)
      ensures base.Valid() && (r.Moved? ==> base.State() == r.base)
    {
      if DigitAt(f, s) {
        var n := ParseNumber(f, s);
        match n
        case Fail(fault) => return Stopped(fault);
        case Go(v, p) => return Moved(spec.(width := v), p, base.State());
      }
      if CharAt(f, s) == '{' {
        var n := ParseNested(f, s + 1, NegativeWidth, WidthNotInteger);
        match n
        case Stopped(fault) => return Stopped(fault);
        case Moved(v, p, b) => return Moved(spec.(width := v), p, b);
      }
      return Moved(spec, s, base.State());
    }

    method ParsePrecision(f: CString, s: nat, arg: Argument, spec: Spec) returns (r: Traced<Spec>)
      requires s <= |f| && base.Valid()
      modifies base
      ensures r == PrecisionAt(f, s, arg, base.args, old(base.State()), spec)
      ensures base.Valid() && (r.Moved? ==> base.State() == r.base)
    {
      if CharAt(f, s) != '.' {
        return Moved(spec, s, base.State());
      }
      var n: Traced<nat>;
      if DigitAt(f, s + 1) {
        var v := ParseNumber(f, s + 1);
        n := match v case Fail(fault) => Stopped(fault) case Go(v, p) => Moved(v, p, base.State());
      } else if CharAt(f, s + 1) == '{' {
        n := ParseNested(f, s + 2, NegativePrecision, PrecisionNotInteger);
      } else {
        n := Stopped(MissingPrecision);
      }
      match n
      case Stopped(fault) => return Stopped(fault);
      case Moved(v, p, b) =>
        return if TakesPrecision(arg) then Moved(spec.(precision := v), p, b) else Stopped(PrecisionNotAllowed);
    }

    /** What is left of a replacement field once its argument is known. */
    method ParseSpec(f: CString, s: nat, arg: Argument) returns (r: Traced<Spec>)
      requires s <= |f| && base.Valid()
      modifies base
      ensures r == SpecAt(f, s, arg, base.args, old(base.State()))
      ensures base.Valid() && (r.Moved? ==> base.State() == r.base)
    {
      if CharAt(f, s) != ':' {
        return if CharAt(f, s) != '}' then Stopped(MissingBrace) else Moved(PLAIN, s + 1, base.State());
      }
      var flags := FlagsAt(f, s + 1, arg);
      if flags.Fail? {
        return Stopped(flags.fault);
      }
      var width := ParseWidth(f, flags.pos, flags.value);
      if width.Stopped? {
        return width;
      }
      var sizes := ParsePrecision(f, width.pos, arg, width.value);
      if sizes.Stopped? {
        return sizes;
      }
      match KindAt(f, sizes.pos, sizes.value)
      case Fail(fault) => return Stopped(fault);
      case Go(spec, p) => return Moved(spec, p, sizes.base);
    }

    method Write(text: string)
      modifies this
      ensures written == old(written) + TextPiece(text)
    {
      if text != "" {
        written := written + [Text(text)];
      }
    }

    method ParseField(f: CString, s: nat) returns (r: Traced<Piece>)
      requires s <= |f| && base.Valid()
      modifies base
      ensures r == FieldAt(f, s, base.args, old(base.State()))
      ensures base.Valid() && (r.Moved? ==> base.State() == r.base)
    {
      var from := |base.got|;
      var arg := ParseArg(f, s);
      if arg.Stopped? {
        return Stopped(arg.fault);
      }
      var spec := ParseSpec(f, arg.pos, arg.value);
      if spec.Stopped? {
        return Stopped(spec.fault);
      }
      match ShowFault(arg.value, spec.value)
      case Some(fault) => return Stopped(fault);
      case None => return Moved(Field(from, arg.value, arg.value, spec.value), spec.pos, spec.base);
    }

    /** Reads the field whose brace stands at `s`; a closing one has no field. */
    method ReadField(f: CString, s: nat, ghost read: Reader) returns (r: Traced<Piece>)
      requires s < |f| && base.Valid() && SameReader(read, Fields(f, base.args))
      modifies base
      ensures base.Valid() && r == read(s, old(base.State()))
      ensures r.Moved? ==> base.State() == r.base
    {
      assert Asked(s, base.State());
      if f[s] == '}' {
        return Stopped(UnmatchedBrace);
      }
      r := ParseField(f, s + 1);
    }

    /** Writes the text before a field, then the field. */
    method WriteField(f: CString, start: nat, s: nat, ghost read: Reader) returns (r: Traced<Piece>)
      requires start <= s < |f| && base.Valid() && SameReader(read, Fields(f, base.args))
      modifies this, base
      ensures base.Valid() && r == read(s, old(base.State()))
      ensures r.Moved? ==> base.State() == r.base
      ensures r.Moved? ==> written == old(written) + TextPiece(f[start..s]) + [r.value]
    {
      Write(f[start..s]);
      r := ReadField(f, s, read);
      if r.Moved? {
        written := written + [r.value];
      }
    }

    /** A turn of the loop at a special character; `more` is what it writes. */
    method SpecialTurn(f: CString, start: nat, s: nat, ghost read: Reader, ghost sofar: seq<Piece>)
      returns (fault: Option<Fault>, next: nat, ghost more: seq<Piece>)
      requires start <= s < |f| && f[s] in BRACES
      requires base.Valid() && SameReader(read, Fields(f, base.args)) && Advances(f, read)
      modifies this, base
      ensures base.Valid()
      ensures fault.Some? ==> Scan(f, BRACES, read, start, s, old(base.State())) == Failed(fault.value)
      ensures fault.None? ==>
        && s < next <= |f| && written == old(written) + more
        && Prepend(sofar, Scan(f, BRACES, read, start, s, old(base.State())))
           == Prepend(sofar + more, Scan(f, BRACES, read, next, next, base.State()))
    {
      fault, more := None, [];
      if CharAt(f, s + 1) == f[s] {
        DoubledTurn(f, BRACES, read, start, s, base.State(), sofar);
        more := TextPiece(f[start..s + 1]);
        Write(f[start..s + 1]);
        next := s + 2;
      } else {
        FieldTurn(f, BRACES, read, start, s, base.State(), sofar);
        var field := WriteField(f, start, s, read);
        if field.Stopped? {
          return Some(field.fault), s, [];
        }
        more := TextPiece(f[start..s]) + [field.value];
        assert sofar + TextPiece(f[start..s]) + [field.value] == sofar + more;
        next := field.pos;
      }
    }

    /** The formatting loop; `read` is how fields are read. */
    method Loop(f: CString, ghost read: Reader) returns (fault: Option<Fault>)
      requires base.Valid() && SameReader(read, Fields(f, base.args)) && Advances(f, read)
      modifies this, base
      ensures Reached(Scan(f, BRACES, read, 0, 0, old(base.State())), fault, old(written), written, base.State())
    {
      ghost var whole := Scan(f, BRACES, read, 0, 0, base.State());
      ghost var before := written;
      ghost var sofar: seq<Piece> := [];
      PrependNothing(whole);
      var s: nat, start: nat := 0, 0;
      while s < |f|
        invariant start <= s <= |f| && base.Valid()
        invariant written == before + sofar
        invariant whole == Prepend(sofar, Scan(f, BRACES, read, start, s, base.State()))
        decreases |f| - s
      {
        if f[s] != '{' && f[s] != '}' {
          s := s + 1;
        } else {
          ghost var more;
          fault, s, more := SpecialTurn(f, start, s, read, sofar);
          if fault.Some? {
            assert whole == Failed(fault.value);
            return;
          }
          sofar := sofar + more;
          start := s;
        }
      }
      ScanTail(f, BRACES, read, start, base.State(), sofar, before);
      Write(f[start..]);
      return None;
    }

    /** Formats the whole string; on a fault what has been written stays. */
    method FormatAll(f: CString) returns (fault: Option<Fault>)
      requires base.Valid()
      modifies this, base
      ensures Reached(Scan(f, BRACES, Fields(f, base.args), 0, 0, old(base.State())), fault, old(written), written,
                      base.State())
    {
      fault := Loop(f, Fields(f, base.args));
    }
  }
}
