/** The printf formatter: conversions, their flags, and the text between them. */
module PrintfFormatters {
  import opened Options
  import opened CountDigits
  import opened ArgLists
  import opened FormatIntegers
  import opened WriteIntegers
  import opened FormatterBases
  import opened Rendering
  import opened OutputPieces

  /** The index of an argument that no index was given for. */
  const NO_INDEX: nat := TWO_TO_32 - 1

  const RIGHT_ALIGNED := Spec(0, ' ', AlignRight, -1, false, false, false, false, NUL)

  // ---- flags ---------------------------------------------------------------------------------------

  predicate IsFlag(c: char) {
    c in {'-', '+', '0', ' ', '#'}
  }

  function WithFlag(spec: Spec, c: char): Spec {
    match c
    case '-' => spec.(align := AlignLeft)
    case '+' => spec.(sign := true, plus := true)
    case '0' => spec.(fill := '0')
    case ' ' => spec.(sign := true)
    case '#' => spec.(hash := true)
    case _ => spec
  }

  /** All flags from `s` on. */
  function FlagsFrom(f: CString, s: nat, spec: Spec): (r: (Spec, nat))
    requires s <= |f|
    ensures s <= r.1 <= |f| && !IsFlag(CharAt(f, r.1))
    ensures forall i | s <= i < r.1 :: IsFlag(f[i])
    decreases |f| - s
  {
    if IsFlag(CharAt(f, s)) then FlagsFrom(f, s + 1, WithFlag(spec, f[s])) else (spec, s)
  }

  method ParseFlags(f: CString, s: nat, spec: Spec) returns (spec': Spec, p: nat)
    requires s <= |f|
    ensures (spec', p) == FlagsFrom(f, s, spec)
  {
    spec', p := spec, s;
    while IsFlag(CharAt(f, p))
      invariant s <= p <= |f| && FlagsFrom(f, p, spec') == FlagsFrom(f, s, spec)
      decreases |f| - p
    {
      spec' := WithFlag(spec', f[p]);
      p := p + 1;
    }
  }

  /** The specification after a set of flags. */
  function WithFlags(spec: Spec, flags: string): Spec {
    spec.(align := if '-' in flags then AlignLeft else spec.align,
          fill := if '0' in flags then '0' else spec.fill,
          sign := spec.sign || '+' in flags || ' ' in flags,
          plus := spec.plus || '+' in flags,
          hash := spec.hash || '#' in flags)
  }

  lemma OneMoreFlag(spec: Spec, c: char, flags: string)
    requires IsFlag(c)
    ensures WithFlags(WithFlag(spec, c), flags) == WithFlags(spec, [c] + flags)
  {
  }

  /** Flags may come in any order and any number: what counts is which ones are there. */
  lemma {:induction false} FlagsAreASet(f: CString, s: nat, spec: Spec)
    requires s <= |f|
    ensures FlagsFrom(f, s, spec).0 == WithFlags(spec, f[s..FlagsFrom(f, s, spec).1])
    decreases |f| - s
  {
    if IsFlag(CharAt(f, s)) {
      FlagsAreASet(f, s + 1, WithFlag(spec, f[s]));
      var p := FlagsFrom(f, s, spec).1;
      assert f[s..p] == [f[s]] + f[s + 1..p];
      OneMoreFlag(spec, f[s], f[s + 1..p]);
    }
  }

  // ---- the head of a conversion --------------------------------------------------------------------

  /** The next argument, or the one with the given index; indices count from one, in unsigned arithmetic. */
  function RequestFor(argIndex: nat): Request {
    if argIndex == NO_INDEX then Next else Index(if argIndex == 0 then TWO_TO_32 - 1 else argIndex - 1)
  }

  function FetchAt(f: CString, s: nat, args: seq<Argument>, b: Base, argIndex: nat): (r: Traced<Argument>)
    requires s <= |f| && b.next >= -1
    ensures r.Moved? ==> r.pos == s && r.base.next >= -1
  {
    match Fetch(args, b, RequestFor(argIndex))
    case (Found(a), b1) => Moved(a, s, b1)
    case (Denied(fault), _) => Stopped(if CharAt(f, s) == NUL then InvalidFormat else fault)
  }

  /** A width argument; a negative one asks for left alignment. */
  function WithWidth(spec: Spec, a: Argument): (r: Step<Spec>)
    ensures r.Go? ==> r.value.width <= INT_MAX
  {
    if !IsInteger(a) then Fail(WidthNotInteger)
    else if a.number < 0 then
      if -a.number > INT_MAX then Fail(NumberTooBig) else Go(spec.(align := AlignLeft, width := -a.number), 0)
    else if a.number > INT_MAX then Fail(NumberTooBig)
    else Go(spec.(width := a.number), 0)
  }

  /** A width that may be an argument. */
  function StarWidthAt(f: CString, s: nat, args: seq<Argument>, b: Base, spec: Spec): (r: Traced<Spec>)
    requires s <= |f| && b.next >= -1
    ensures r.Moved? ==> s <= r.pos <= |f| && r.base.next >= -1
  {
    if DigitAt(f, s) then
      match NumberAt(f, s)
      case Fail(fault) => Stopped(fault)
      case Go(n, p) => Moved(spec.(width := n), p, b)
    else if CharAt(f, s) == '*' then
      match FetchAt(f, s + 1, args, b, NO_INDEX)
      case Stopped(fault) => Stopped(fault)
      case Moved(a, p, b1) =>
        match WithWidth(spec, a)
        case Fail(fault) => Stopped(fault)
        case Go(spec, _) => Moved(spec, p, b1)
    else Moved(spec, s, b)
  }

  datatype Header = Header(argIndex: nat, spec: Spec)

  /**
   * An argument index, flags and a width. A number at the start is an index if `$` follows; otherwise
   * it is a width, or zero flags when its value is zero, and flags can no longer come after a width.
   */
  function HeaderAt(f: CString, s: nat, args: seq<Argument>, b: Base): (r: Traced<Header>)
    requires s <= |f| && b.next >= -1
    ensures r.Moved? ==> s <= r.pos <= |f| && r.base.next >= -1
  {
    if DigitAt(f, s) then
      match NumberAt(f, s)
      case Fail(fault) => Stopped(fault)
      case Go(n, p) =>
        if CharAt(f, p) == '$' then AfterIndex(f, p + 1, args, b, n, RIGHT_ALIGNED)
        else
          var spec := if f[s] == '0' then RIGHT_ALIGNED.(fill := '0') else RIGHT_ALIGNED;
          if n != 0 then Moved(Header(NO_INDEX, spec.(width := n)), p, b)
          else AfterIndex(f, p, args, b, NO_INDEX, spec)
    else AfterIndex(f, s, args, b, NO_INDEX, RIGHT_ALIGNED)
  }

  function AfterIndex(f: CString, s: nat, args: seq<Argument>, b: Base, argIndex: nat, spec: Spec): (r: Traced<Header>)
    requires s <= |f| && b.next >= -1
    ensures r.Moved? ==> s <= r.pos <= |f| && r.base.next >= -1
  {
    var (flagged, p) := FlagsFrom(f, s, spec);
    match StarWidthAt(f, p, args, b, flagged)
    case Stopped(fault) => Stopped(fault)
    case Moved(spec, p, b1) => Moved(Header(argIndex, spec), p, b1)
  }

  lemma HeaderWithIndex(f: CString, s: nat, args: seq<Argument>, b: Base, n: nat, p: nat, r: Traced<Header>)
    requires s <= |f| && b.next >= -1 && DigitAt(f, s) && NumberAt(f, s) == Go(n, p) && CharAt(f, p) == '$'
    requires AfterIndex(f, p + 1, args, b, n, RIGHT_ALIGNED) == r
    ensures HeaderAt(f, s, args, b) == r
  {
  }

  lemma HeaderWithWidth(f: CString, s: nat, args: seq<Argument>, b: Base, n: nat, p: nat)
    requires s <= |f| && b.next >= -1 && DigitAt(f, s) && NumberAt(f, s) == Go(n, p) && CharAt(f, p) != '$' && n != 0
    ensures HeaderAt(f, s, args, b)
         == Moved(Header(NO_INDEX, RIGHT_ALIGNED.(fill := if f[s] == '0' then '0' else ' ', width := n)), p, b)
  {
  }

  lemma HeaderWithZero(f: CString, s: nat, args: seq<Argument>, b: Base, p: nat, r: Traced<Header>)
    requires s <= |f| && b.next >= -1 && DigitAt(f, s) && NumberAt(f, s) == Go(0, p) && CharAt(f, p) != '$'
    requires AfterIndex(f, p, args, b, NO_INDEX, if f[s] == '0' then RIGHT_ALIGNED.(fill := '0') else RIGHT_ALIGNED) == r
    ensures HeaderAt(f, s, args, b) == r
  {
  }

  lemma HeaderWithoutNumber(f: CString, s: nat, args: seq<Argument>, b: Base)
    requires s <= |f| && b.next >= -1 && !DigitAt(f, s)
    ensures HeaderAt(f, s, args, b) == AfterIndex(f, s, args, b, NO_INDEX, RIGHT_ALIGNED)
  {
  }

  /** A precision argument may be negative, which the writers take for none. */
  function WithPrecision(spec: Spec, a: Argument): Step<Spec> {
    if !IsInteger(a) then Fail(PrecisionNotInteger)
    else if a.number < -0x8000_0000 || a.number > INT_MAX then Fail(NumberTooBig)
    else Go(spec.(precision := a.number), 0)
  }

  function StarPrecisionAt(f: CString, s: nat, args: seq<Argument>, b: Base, spec: Spec): (r: Traced<Spec>)
    requires s <= |f| && b.next >= -1
    ensures r.Moved? ==> s <= r.pos <= |f| && r.base.next >= -1
  {
    if CharAt(f, s) != '.' then Moved(spec, s, b)
    else if DigitAt(f, s + 1) then
      match NumberAt(f, s + 1)
      case Fail(fault) => Stopped(fault)
      case Go(n, p) => Moved(spec.(precision := n), p, b)
    else if CharAt(f, s + 1) == '*' then
      match FetchAt(f, s + 2, args, b, NO_INDEX)
      case Stopped(fault) => Stopped(fault)
      case Moved(a, p, b1) =>
        match WithPrecision(spec, a)
        case Fail(fault) => Stopped(fault)
        case Go(spec, _) => Moved(spec, p, b1)
    else Moved(spec.(precision := 0), s + 1, b)
  }

  /** The alternate form shows nothing of a zero, and zero fill is for numbers. */
  function Adjusted(spec: Spec, a: Argument): Spec {
    var hashed := if spec.hash && IsInteger(a) && a.number == 0 then spec.(hash := false) else spec;
    if hashed.fill != '0' then hashed
    else if IsNumeric(a) then hashed.(align := AlignNumeric)
    else hashed.(fill := ' ')
  }

  // ---- conversions of the argument -----------------------------------------------------------------

  /** The type a length modifier asks for; `Own` is the argument's own. */
  datatype Target = Own | SignedChar | Short | Long

  function Length(f: CString, s: nat): (r: (Option<Target>, nat))
    requires s <= |f|
    ensures s <= r.1 <= |f|
  {
    match CharAt(f, s)
    case 'h' => if CharAt(f, s + 1) == 'h' then (Some(SignedChar), s + 2) else (Some(Short), s + 1)
    case 'l' => if CharAt(f, s + 1) == 'l' then (Some(Long), s + 2) else (Some(Long), s + 1)
    case 'j' => (Some(Long), s + 1)
    case 'z' => (Some(Long), s + 1)
    case 't' => (Some(Long), s + 1)
    case 'L' => (None, s + 1)
    case _ => (Some(Own), s)
  }

  /** How many bits an integer argument's type has. */
  function KindBits(kind: Kind): (bits: nat) {
    match kind
    case KindBool => 1
    case KindChar => 8
    case KindInt => 32
    case KindUInt => 32
    case _ => 64
  }

  function Modulus(bits: nat): (m: nat)
    ensures m > 0 && (bits > 0 ==> m % 2 == 0)
  {
    if bits == 0 then 1 else 2 * Modulus(bits - 1)
  }

  function WrapUnsigned(n: int, bits: nat): (r: nat)
    ensures r < Modulus(bits)
  {
    n % Modulus(bits)
  }

  function WrapSigned(n: int, bits: nat): (r: int)
  {
    var u := WrapUnsigned(n, bits);
    if 2 * u < Modulus(bits) then u else u - Modulus(bits)
  }

  predicate IsSignedKind(kind: Kind) {
    kind == KindInt || kind == KindLongLong || kind == KindChar
  }

  /** Whether the presentation type asks for a signed number. */
  predicate WantsSigned(kind: Kind, presentation: char) {
    presentation == 'd' || presentation == 'i' || (presentation == 's' && IsSignedKind(kind))
  }

  predicate Narrow(kind: Kind, target: Target) {
    match target
    case Own => KindBits(kind) <= 32
    case Long => false
    case _ => true
  }

  function TargetBits(kind: Kind, target: Target): nat {
    match target
    case Own => KindBits(kind)
    case SignedChar => 8
    case Short => 16
    case Long => 64
  }

  /** An integer converted to the type a conversion asks for. */
  function Converted(a: Argument, target: Target, presentation: char): Argument {
    if !IsInteger(a) || (presentation == 's' && a.kind in {KindBool, KindChar}) then a
    else
      var signed := WantsSigned(a.kind, presentation);
      var bits := TargetBits(a.kind, target);
      if Narrow(a.kind, target) then
        if a.kind == KindBool then a.(kind := if signed then KindInt else KindUInt)
        else if signed then a.(kind := KindInt, number := WrapSigned(a.number, bits))
        else a.(kind := KindUInt, number := WrapUnsigned(a.number, bits))
      else if signed then a.(kind := KindLongLong, number := WrapSigned(a.number, 64))
      else if a.kind == KindBool then a.(kind := KindULongLong)
      else a.(kind := KindULongLong, number := WrapUnsigned(a.number, KindBits(a.kind)))
  }

  /** The default presentation of an argument shown as a string. */
  function DefaultType(a: Argument): char {
    match a.kind
    case KindChar => 'c'
    case KindBool => 's'
    case KindPointer => 'p'
    case KindDouble => 'g'
    case KindLongDouble => 'g'
    case KindCString => 's'
    case KindString => 's'
    case _ => 'd'
  }

  /** What is shown, and how, once the presentation type is known. */
  function Normalized(a: Argument, spec: Spec, presentation: char): (Argument, Spec) {
    var kind := if presentation == 's' then DefaultType(a) else presentation;
    if !IsInteger(a) then (a, spec.(kind := kind))
    else if kind == 'i' || kind == 'u' then (a, spec.(kind := 'd'))
    else if kind == 'c' then (a.(kind := KindChar, number := WrapSigned(a.number, 8)), spec.(kind := kind))
    else (a, spec.(kind := kind))
  }

  /** From the argument's fetch to the end of the conversion. */
  function TailAt(f: CString, s: nat, from: nat, a: Argument, spec: Spec, b: Base): (r: Traced<Piece>)
    requires s <= |f| && b.next >= -1
    ensures r.Moved? ==> s < r.pos <= |f| && r.base == b
  {
    var (target, p) := Length(f, s);
    if CharAt(f, p) == NUL then Stopped(InvalidFormat)
    else
      var shown := if target.None? then a else Converted(a, target.value, f[p]);
      var (shown, spec) := Normalized(shown, Adjusted(spec, a), f[p]);
      match PrintfFault(shown, spec)
      case Some(fault) => Stopped(fault)
      case None => Moved(Field(from, a, shown, spec), p + 1, b)
  }

  /** The argument is fetched last, after width and precision. */
  function ArgumentAt(f: CString, s: nat, args: seq<Argument>, b: Base, argIndex: nat, spec: Spec): (r: Traced<Piece>)
    requires s <= |f| && b.next >= -1
    ensures r.Moved? ==> s < r.pos <= |f| && r.base.next >= -1
  {
    match FetchAt(f, s, args, b, argIndex)
    case Stopped(fault) => Stopped(fault)
    case Moved(a, p, b1) => TailAt(f, p, |b.got|, a, spec, b1)
  }

  /** A whole conversion, with `s` behind its percent sign: width, precision, then the argument. */
  function ConversionAt(f: CString, s: nat, args: seq<Argument>, b: Base): (r: Traced<Piece>)
    requires s <= |f| && b.next >= -1
    ensures r.Moved? ==> s < r.pos <= |f| && r.base.next >= -1
  {
    match HeaderAt(f, s, args, b)
    case Stopped(fault) => Stopped(fault)
    case Moved(h, p, b1) =>
      match StarPrecisionAt(f, p, args, b1, h.spec)
      case Stopped(fault) => Stopped(fault)
      case Moved(spec, p, b2) => ArgumentAt(f, p, args, b2, h.argIndex, spec)
  }

  // ---- the whole format string ---------------------------------------------------------------------

  const PERCENT: set<char> := {'%'}

  /** A percent sign on its own begins a conversion. */
  function Conversions(f: CString, args: seq<Argument>): (read: Reader)
    ensures Advances(f, read)
    ensures forall s: nat, b: Base {:trigger Asked(s, b)} ::
              Asked(s, b) && s < |f| && b.next >= -1 ==> read(s, b) == ConversionAt(f, s + 1, args, b)
  {
    (s: nat, b: Base) => if s >= |f| || b.next < -1 then Stopped(InvalidFormat) else ConversionAt(f, s + 1, args, b)
  }

  lemma ConversionRead(f: CString, args: seq<Argument>, s: nat, b: Base)
    requires s < |f| && b.next >= -1
    ensures Conversions(f, args)(s, b) == ConversionAt(f, s + 1, args, b)
  {
    assert Asked(s, b);
  }

  lemma FirstConversion(f: CString, args: seq<Argument>, b: Base, r: Traced<Piece>)
    requires |f| >= 1 && b.next >= -1 && ConversionAt(f, 1, args, b) == r
    ensures Conversions(f, args)(0, b) == r
  {
    assert Asked(0, b);
  }

  function Print(f: CString, args: seq<Argument>): Outcome {
    Scan(f, PERCENT, Conversions(f, args), 0, 0, Base(0, []))
  }

  class PrintfFormatter {
    const base: FormatterBase
    /** What has gone to the writer. */
    var written: seq<Piece>

    constructor (args: seq<Argument>)
      ensures fresh(base) && base.Valid() && base.args == args && base.State() == Base(0, []) && written == []
    {
      base := new FormatterBase(args);
      written := [];
    }

    method GetArg(f: CString, s: nat, argIndex: nat) returns (r: Traced<Argument>)
      requires s <= |f| && base.Valid()
      modifies base
      ensures r == FetchAt(f, s, base.args, old(base.State()), argIndex)
      ensures base.Valid() && (r.Moved? ==> base.State() == r.base)
    {
      var got;
      if argIndex == NO_INDEX {
        got := base.NextArg();
      } else {
        got := base.GetArg(if argIndex == 0 then TWO_TO_32 - 1 else argIndex - 1);
      }
      match got
      case Found(a) => return Moved(a, s, base.State());
      case Denied(fault) => return Stopped(if CharAt(f, s) == NUL then InvalidFormat else fault);
    }

    method ParseStarWidth(f: CString, s: nat, spec: Spec) returns (r: Traced<Spec>)
      requires s <= |f| && base.Valid()
      modifies base
      ensures r == StarWidthAt(f, s, base.args, old(base.State()), spec)
      ensures base.Valid() && (r.Moved? ==> base.State() == r.base)
    {
      if DigitAt(f, s) {
        var n := ParseNumber(f, s);
        match n
        case Fail(fault) => return Stopped(fault);
        case Go(v, p) => return Moved(spec.(width := v), p, base.State());
      }
      if CharAt(f, s) == '*' {
        var a := GetArg(f, s + 1, NO_INDEX);
        if a.Stopped? {
          return Stopped(a.fault);
        }
        match WithWidth(spec, a.value)
        case Fail(fault) => return Stopped(fault);
        case Go(spec, _) => return Moved(spec, a.pos, a.base);
      }
      return Moved(spec, s, base.State());
    }

    /** What follows an index or zero flags: more flags, and a width. */
    method ParseAfterIndex(f: CString, s: nat, argIndex: nat, spec: Spec) returns (r: Traced<Header>)
      requires s <= |f| && base.Valid()
      modifies base
      ensures r == AfterIndex(f, s, base.args, old(base.State()), argIndex, spec)
      ensures base.Valid() && (r.Moved? ==> base.State() == r.base)
    {
      var flagged, p := ParseFlags(f, s, spec);
      var w := ParseStarWidth(f, p, flagged);
      match w
      case Stopped(fault) => return Stopped(fault);
      case Moved(spec, p, b) => return Moved(Header(argIndex, spec), p, b);
    }

    method ParseHeader(f: CString, s: nat) returns (r: Traced<Header>)
      requires s <= |f| && base.Valid()
      modifies base
      ensures r == HeaderAt(f, s, base.args, old(base.State()))
      ensures base.Valid() && (r.Moved? ==> base.State() == r.base)
    {
      if !DigitAt(f, s) {
        HeaderWithoutNumber(f, s, base.args, base.State());
        r := ParseAfterIndex(f, s, NO_INDEX, RIGHT_ALIGNED);
        return;
      }
      var n := ParseNumber(f, s);
      match n
      case Fail(fault) => return Stopped(fault);
      case Go(v, p) => r := ParseNumbered(f, s, v, p);
    }

    /** A number at the start: an index, a width, or zero flags. */
    method ParseNumbered(f: CString, s: nat, n: nat, p: nat) returns (r: Traced<Header>)
      requires s <= |f| && base.Valid() && DigitAt(f, s) && NumberAt(f, s) == Go(n, p)
      modifies base
      ensures r == HeaderAt(f, s, base.args, old(base.State()))
      ensures base.Valid() && (r.Moved? ==> base.State() == r.base)
    {
      ghost var b := base.State();
      if CharAt(f, p) == '$' {
        r := ParseAfterIndex(f, p + 1, n, RIGHT_ALIGNED);
        HeaderWithIndex(f, s, base.args, b, n, p, r);
        return;
      }
      var spec := if f[s] == '0' then RIGHT_ALIGNED.(fill := '0') else RIGHT_ALIGNED;
      if n != 0 {
        HeaderWithWidth(f, s, base.args, b, n, p);
        return Moved(Header(NO_INDEX, spec.(width := n)), p, base.State());
      }
      r := ParseAfterIndex(f, p, NO_INDEX, spec);
      HeaderWithZero(f, s, base.args, b, p, r);
    }

    method ParseStarPrecision(f: CString, s: nat, spec: Spec) returns (r: Traced<Spec>)
      requires s <= |f| && base.Valid()
      modifies base
      ensures r == StarPrecisionAt(f, s, base.args, old(base.State()), spec)
      ensures base.Valid() && (r.Moved? ==> base.State() == r.base)
    {
      if CharAt(f, s) != '.' {
        return Moved(spec, s, base.State());
      }
      if DigitAt(f, s + 1) {
        var n := ParseNumber(f, s + 1);
        match n
        case Fail(fault) => return Stopped(fault);
        case Go(v, p) => return Moved(spec.(precision := v), p, base.State());
      }
      if CharAt(f, s + 1) == '*' {
        var a := GetArg(f, s + 2, NO_INDEX);
        if a.Stopped? {
          return Stopped(a.fault);
        }
        match WithPrecision(spec, a.value)
        case Fail(fault) => return Stopped(fault);
        case Go(spec, _) => return Moved(spec, a.pos, a.base);
      }
      return Moved(spec.(precision := 0), s + 1, base.State());
    }

    method ParseConversion(f: CString, s: nat) returns (r: Traced<Piece>)
      requires s <= |f| && base.Valid()
      modifies base
      ensures r == ConversionAt(f, s, base.args, old(base.State()))
      ensures base.Valid() && (r.Moved? ==> base.State() == r.base)
    {
      var header := ParseHeader(f, s);
      if header.Stopped? {
        return Stopped(header.fault);
      }
      var precision := ParseStarPrecision(f, header.pos, header.value.spec);
      if precision.Stopped? {
        return Stopped(precision.fault);
      }
      var from := |base.got|;
      var arg := GetArg(f, precision.pos, header.value.argIndex);
      if arg.Stopped? {
        return Stopped(arg.fault);
      }
      return TailAt(f, arg.pos, from, arg.value, precision.value, arg.base);
    }

    method Write(text: string)
      modifies this
      ensures written == old(written) + TextPiece(text)
    {
      if text != "" {
        written := written + [Text(text)];
      }
    }

    /** Reads the conversion whose percent sign stands at `s`. */
    method ReadConversion(f: CString, s: nat, ghost read: Reader) returns (r: Traced<Piece>)
      requires s < |f| && base.Valid() && SameReader(read, Conversions(f, base.args))
      modifies base
      ensures base.Valid() && r == read(s, old(base.State()))
      ensures r.Moved? ==> base.State() == r.base
    {
      assert Asked(s, base.State());
      r := ParseConversion(f, s + 1);
    }

    /** Writes the text before a conversion, then the conversion. */
    method WriteConversion(f: CString, start: nat, s: nat, ghost read: Reader) returns (r: Traced<Piece>)
      requires start <= s < |f| && base.Valid() && SameReader(read, Conversions(f, base.args))
      modifies this, base
      ensures base.Valid() && r == read(s, old(base.State()))
      ensures r.Moved? ==> base.State() == r.base
      ensures r.Moved? ==> written == old(written) + TextPiece(f[start..s]) + [r.value]
    {
      Write(f[start..s]);
      r := ReadConversion(f, s, read);
      if r.Moved? {
        written := written + [r.value];
      }
    }

    /** A turn of the loop at a special character; `more` is what it writes. */
    method SpecialTurn(f: CString, start: nat, s: nat, ghost read: Reader, ghost sofar: seq<Piece>)
      returns (fault: Option<Fault>, next: nat, ghost more: seq<Piece>)
      requires start <= s < |f| && f[s] in PERCENT
      requires base.Valid() && SameReader(read, Conversions(f, base.args)) && Advances(f, read)
      modifies this, base
      ensures base.Valid()
      ensures fault.Some? ==> Scan(f, PERCENT, read, start, s, old(base.State())) == Failed(fault.value)
      ensures fault.None? ==>
        && s < next <= |f| && written == old(written) + more
        && Prepend(sofar, Scan(f, PERCENT, read, start, s, old(base.State())))
           == Prepend(sofar + more, Scan(f, PERCENT, read, next, next, base.State()))
    {
      fault, more := None, [];
      if CharAt(f, s + 1) == f[s] {
        DoubledTurn(f, PERCENT, read, start, s, base.State(), sofar);
        more := TextPiece(f[start..s + 1]);
        Write(f[start..s + 1]);
        next := s + 2;
      } else {
        FieldTurn(f, PERCENT, read, start, s, base.State(), sofar);
        var field := WriteConversion(f, start, s, read);
        if field.Stopped? {
          return Some(field.fault), s, [];
        }
        more := TextPiece(f[start..s]) + [field.value];
        assert sofar + TextPiece(f[start..s]) + [field.value] == sofar + more;
        next := field.pos;
      }
    }

    /** The formatting loop; `read` is how fields are read. */
    method Loop(f: CString, ghost read: Reader) returns (fault: Option<Fault>)
      requires base.Valid() && SameReader(read, Conversions(f, base.args)) && Advances(f, read)
      modifies this, base
      ensures Reached(Scan(f, PERCENT, read, 0, 0, old(base.State())), fault, old(written), written, base.State())
    {
      ghost var whole := Scan(f, PERCENT, read, 0, 0, base.State());
      ghost var before := written;
      ghost var sofar: seq<Piece> := [];
      PrependNothing(whole);
      var s: nat, start: nat := 0, 0;
      while s < |f|
        invariant start <= s <= |f| && base.Valid()
        invariant written == before + sofar
        invariant whole == Prepend(sofar, Scan(f, PERCENT, read, start, s, base.State()))
        decreases |f| - s
      {
        if f[s] != '%' {
          s := s + 1;
        } else {
          ghost var more;
          fault, s, more := SpecialTurn(f, start, s, read, sofar);
          if fault.Some? {
            assert whole == Failed(fault.value);
            return;
          }
          sofar := sofar + more;
          start := s;
        }
      }
      ScanTail(f, PERCENT, read, start, base.State(), sofar, before);
      Write(f[start..]);
      return None;
    }

    /** Formats the whole string; on a fault what has been written stays. */
    method FormatAll(f: CString) returns (fault: Option<Fault>)
      requires base.Valid()
      modifies this, base
      ensures Reached(Scan(f, PERCENT, Conversions(f, base.args), 0, 0, old(base.State())), fault, old(written), written,
                      base.State())
    {
      fault := Loop(f, Conversions(f, base.args));
    }
  }
}
