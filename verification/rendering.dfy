/** How an argument is shown: what its specification may ask for, and the text that comes out. */
module Rendering {
  import opened Options
  import opened ArgLists
  import opened WriteIntegers
  import opened Buffers
  import opened Parts
  import opened FormatterBases

  // ---- strings -------------------------------------------------------------------------------------

  /** What goes around a string or a character. */
  function StrFrame(n: nat, spec: Spec): Frame {
    if spec.width <= n then Frame("", "")
    else
      var pad := spec.width - n;
      match spec.align
      case AlignRight => Frame(Repeat(spec.fill, pad), "")
      case AlignCenter => Frame(Repeat(spec.fill, pad / 2), Repeat(spec.fill, pad - pad / 2))
      case _ => Frame("", Repeat(spec.fill, pad))
  }

  function StrText(text: string, spec: Spec): string {
    StrFrame(|text|, spec).left + text + StrFrame(|text|, spec).right
  }

  /** A precision cuts a string off. */
  function Cut(text: string, precision: int): string {
    if 0 <= precision < |text| then text[..precision] else text
  }

  /** Lays the padding of a string that is shorter than its field; returns where the string goes. */
  method LayStr(target: array<char>, p: nat, n: nat, spec: Spec) returns (at: nat)
    requires spec.width > n && p + spec.width <= target.Length
    modifies target
    ensures var f := StrFrame(n, spec);
      && at == p + |f.left|
      && (forall i | 0 <= i < |f.left| :: target[p + i] == f.left[i])
      && (forall i | 0 <= i < |f.right| :: target[p + |f.left| + n + i] == f.right[i])
    ensures forall i | 0 <= i < p || p + spec.width <= i < target.Length :: target[i] == old(target[i])
  {
    var end, padding := p + spec.width, spec.width - n;
    if spec.align == AlignRight {
      at := p + padding;
      FillRange(target, p, at, spec.fill);
    } else if spec.align == AlignCenter {
      at := p + padding / 2;
      FillRange(target, p, at, spec.fill);
      FillRange(target, at + n, end, spec.fill);
    } else {
      at := p;
      FillRange(target, at + n, end, spec.fill);
    }
  }

  lemma StrFrameWidth(n: nat, spec: Spec)
    ensures var f := StrFrame(n, spec);
      |f.left| + n + |f.right| == if spec.width <= n then n else spec.width
  {
  }

  /** Room for the string and its padding, with the padding in place; returns where the string goes. */
  method PrepareStr(buffer: MemoryBuffer, n: nat, spec: Spec) returns (at: nat)
    requires buffer.Valid()
    modifies buffer, buffer.ptr
    ensures buffer.Valid() && (buffer.ptr == old(buffer.ptr) || fresh(buffer.ptr))
    ensures Framed(buffer.Contents(), old(buffer.Contents()), StrFrame(n, spec), n)
    ensures at == old(buffer.size) + |StrFrame(n, spec).left|
    ensures buffer.Room() == Extended(old(buffer.Room()), |StrFrame(n, spec).left| + n + |StrFrame(n, spec).right|)
  {
    ghost var before := buffer.Contents();
    StrFrameWidth(n, spec);
    if spec.width > n {
      var p := GrowBuffer(buffer, spec.width);
      at := LayStr(buffer.ptr, p, n, spec);
    } else {
      at := GrowBuffer(buffer, n);
    }
    ArrayFramed(buffer.ptr, buffer.size, before, StrFrame(n, spec), n);
  }

  method PutText(buffer: MemoryBuffer, at: nat, text: string, ghost before: string, ghost f: Frame)
    requires buffer.Valid() && Framed(buffer.Contents(), before, f, |text|) && at == |before| + |f.left|
    modifies buffer.ptr
    ensures buffer.Valid() && buffer.Contents() == before + (f.left + text + f.right)
  {
    ghost var laid := buffer.Contents();
    CopyTo(buffer.ptr, at, text);
    StillFramed(laid, buffer.Contents(), before, f, |text|);
    FieldWritten(buffer.Contents(), before, f, text);
  }

  /** Appends a string in its field. */
  method WriteStr(buffer: MemoryBuffer, text: string, spec: Spec)
    requires buffer.Valid()
    modifies buffer, buffer.ptr
    ensures buffer.Valid() && (buffer.ptr == old(buffer.ptr) || fresh(buffer.ptr))
    ensures buffer.Contents() == old(buffer.Contents()) + StrText(text, spec)
    ensures buffer.Room() == Extended(old(buffer.Room()), |StrText(text, spec)|)
  {
    ghost var before := buffer.Contents();
    var at := PrepareStr(buffer, |text|, spec);
    PutText(buffer, at, text, before, StrFrame(|text|, spec));
  }

  /** The text of an argument shown as a specification asks. */
  type Shower = (Argument, Spec) -> string

  // ---- arguments -----------------------------------------------------------------------------------

  /**
   * The number of an argument is within its type. For C strings, strings and pointers it is the
   * address, zero being null, and a null string has no text.
   */
  predicate InRange(a: Argument) {
    match a.kind
    case KindInt => InType(a.number, 32, true)
    case KindUInt => InType(a.number, 32, false)
    case KindLongLong => InType(a.number, 64, true)
    case KindULongLong => InType(a.number, 64, false)
    case KindBool => 0 <= a.number <= 1
    case KindChar => -128 <= a.number < 128
    case KindCString => InType(a.number, 64, false) && (a.number == 0 ==> a.text == "")
    case KindString => InType(a.number, 64, false) && (a.number == 0 ==> a.text == "")
    case KindPointer => InType(a.number, 64, false)
    case _ => true
  }

  predicate IsDoubleType(kind: char) {
    kind in {NUL, 'e', 'f', 'g', 'a', 'F', 'E', 'G', 'A'}
  }

  predicate NoFlags(spec: Spec) {
    !spec.sign && !spec.plus && !spec.minus && !spec.hash
  }

  function StrFault(a: Argument, spec: Spec): Option<Fault> {
    if spec.kind != NUL && spec.kind != 's' then Some(UnknownType)
    else if a.number == 0 then Some(NullString)
    else None
  }

  /** Why the brace formatter cannot show an argument, if it cannot. */
  function ShowFault(a: Argument, spec: Spec): Option<Fault> {
    match a.kind
    case KindBool => if spec.kind == NUL || KnownKind(spec.kind) then None else Some(UnknownType)
    case KindChar =>
      if spec.kind != NUL && spec.kind != 'c' then (if KnownKind(spec.kind) then None else Some(UnknownType))
      else if spec.align == AlignNumeric || !NoFlags(spec) then Some(InvalidForChar)
      else None
    case KindDouble => if IsDoubleType(spec.kind) then None else Some(UnknownType)
    case KindLongDouble => if IsDoubleType(spec.kind) then None else Some(UnknownType)
    case KindCString => if spec.kind == 'p' then None else StrFault(a, spec)
    case KindString => StrFault(a, spec)
    case KindPointer => if spec.kind == NUL || spec.kind == 'p' then None else Some(UnknownType)
    case _ => if KnownKind(spec.kind) then None else Some(UnknownType)
  }

  /** A pointer is its address in hexadecimal with a prefix, whatever flags were given. */
  function PointerSpec(spec: Spec): Spec {
    spec.(sign := false, plus := false, minus := false, hash := true, kind := 'x')
  }

  function CharOf(n: int): char {
    (n % 256) as char
  }

  /** What an argument is written as; the text of floating-point numbers is up to `doubles`. */
  function ShowPart(a: Argument, spec: Spec, doubles: Shower): Part {
    match a.kind
    case KindBool =>
      if spec.kind == NUL then AsText(StrText(Cut(BoolText(a), spec.precision), spec))
      else AsInt(a.number, 32, false, spec)
    case KindChar =>
      if spec.kind != NUL && spec.kind != 'c' then AsInt(a.number, 32, true, spec)
      else AsText(StrText([CharOf(a.number)], spec))
    case KindDouble => AsText(doubles(a, spec))
    case KindLongDouble => AsText(doubles(a, spec))
    case KindCString =>
      if spec.kind == 'p' then AsInt(a.number, 64, false, PointerSpec(spec))
      else AsText(StrText(Cut(a.text, spec.precision), spec))
    case KindString => AsText(StrText(Cut(a.text, spec.precision), spec))
    case KindPointer => AsInt(a.number, 64, false, PointerSpec(spec))
    case _ => AsInt(a.number, WordBits(a.kind), a.kind in {KindInt, KindLongLong}, spec)
  }

  function WordBits(kind: Kind): nat {
    if kind in {KindLongLong, KindULongLong} then 64 else 32
  }

  function BoolText(a: Argument): string {
    if a.number != 0 then "true" else "false"
  }

  /** `write_int` of a number known to be fit for it. */
  method ShowInt(buffer: MemoryBuffer, n: int, bits: nat, signed: bool, spec: Spec, sep: string)
    requires buffer.Valid() && InType(n, bits, signed) && KnownKind(spec.kind)
    modifies buffer, buffer.ptr
    ensures buffer.Valid() && (buffer.ptr == old(buffer.ptr) || fresh(buffer.ptr))
    ensures Appends(old(buffer.Contents()), old(buffer.Room()), buffer.Contents(), buffer.Room(),
                    [AsInt(n, bits, signed, spec)], sep)
  {
    OnePart(buffer.Room(), AsInt(n, bits, signed, spec), sep);
    var ok := WriteInt(buffer, n, bits, signed, spec, sep);
  }

  method ShowStr(buffer: MemoryBuffer, text: string, spec: Spec, ghost sep: string)
    requires buffer.Valid()
    modifies buffer, buffer.ptr
    ensures buffer.Valid() && (buffer.ptr == old(buffer.ptr) || fresh(buffer.ptr))
    ensures Appends(old(buffer.Contents()), old(buffer.Room()), buffer.Contents(), buffer.Room(),
                    [AsText(StrText(text, spec))], sep)
  {
    OnePart(buffer.Room(), AsText(StrText(text, spec)), sep);
    WriteStr(buffer, text, spec);
  }

  method ShowRaw(buffer: MemoryBuffer, text: string, ghost sep: string)
    requires buffer.Valid()
    modifies buffer, buffer.ptr
    ensures buffer.Valid() && (buffer.ptr == old(buffer.ptr) || fresh(buffer.ptr))
    ensures Appends(old(buffer.Contents()), old(buffer.Room()), buffer.Contents(), buffer.Room(), [AsText(text)], sep)
  {
    OnePart(buffer.Room(), AsText(text), sep);
    buffer.Append(text);
  }

  /** Appends an argument that can be shown. */
  method Show(buffer: MemoryBuffer, a: Argument, spec: Spec, sep: string, doubles: Shower)
    requires buffer.Valid() && InRange(a) && ShowFault(a, spec) == None
    modifies buffer, buffer.ptr
    ensures buffer.Valid() && (buffer.ptr == old(buffer.ptr) || fresh(buffer.ptr))
    ensures Appends(old(buffer.Contents()), old(buffer.Room()), buffer.Contents(), buffer.Room(),
                    [ShowPart(a, spec, doubles)], sep)
  {
    match a.kind
    case KindBool =>
      if spec.kind == NUL {
        ShowStr(buffer, Cut(BoolText(a), spec.precision), spec, sep);
      } else {
        ShowInt(buffer, a.number, 32, false, spec, sep);
      }
    case KindChar =>
      if spec.kind != NUL && spec.kind != 'c' {
        ShowInt(buffer, a.number, 32, true, spec, sep);
      } else {
        ShowStr(buffer, [CharOf(a.number)], spec, sep);
      }
    case KindDouble => ShowRaw(buffer, doubles(a, spec), sep);
    case KindLongDouble => ShowRaw(buffer, doubles(a, spec), sep);
    case KindCString =>
      if spec.kind == 'p' {
        ShowInt(buffer, a.number, 64, false, PointerSpec(spec), sep);
      } else {
        ShowStr(buffer, Cut(a.text, spec.precision), spec, sep);
      }
    case KindString => ShowStr(buffer, Cut(a.text, spec.precision), spec, sep);
    case KindPointer => ShowInt(buffer, a.number, 64, false, PointerSpec(spec), sep);
    case KindInt => ShowInt(buffer, a.number, 32, true, spec, sep);
    case KindUInt => ShowInt(buffer, a.number, 32, false, spec, sep);
    case KindLongLong => ShowInt(buffer, a.number, 64, true, spec, sep);
    case KindULongLong => ShowInt(buffer, a.number, 64, false, spec, sep);
    case _ => assert false;
  }

  // ---- printf --------------------------------------------------------------------------------------

  /** Why the printf formatter cannot show an argument, if it cannot: null pointers it can. */
  function PrintfFault(a: Argument, spec: Spec): Option<Fault> {
    match a.kind
    case KindBool => if spec.kind == 's' || KnownKind(spec.kind) then None else Some(UnknownType)
    case KindChar =>
      if spec.kind == NUL || spec.kind == 'c' || KnownKind(spec.kind) then None else Some(UnknownType)
    case KindCString =>
      if spec.kind == 'p' then None
      else if spec.kind != NUL && spec.kind != 's' then Some(UnknownType) else None
    case KindPointer => if a.number == 0 then None else ShowFault(a, spec)
    case _ => ShowFault(a, spec)
  }

  /** A character's own field is filled with blanks, on the left unless it is aligned left. */
  function CharSpec(spec: Spec): Spec {
    spec.(fill := ' ', align := if spec.align == AlignLeft then AlignLeft else AlignRight)
  }

  /** A character that kept its kind is written as a number too if its type is not `c`. */
  function CharParts(n: int, spec: Spec): seq<Part> {
    (if spec.kind != NUL && spec.kind != 'c' then [AsInt(n, 32, true, spec)] else [])
    + [AsText(StrText([CharOf(n)], CharSpec(spec)))]
  }

  /** What an argument is written as under printf. */
  function PrintfParts(a: Argument, spec: Spec, doubles: Shower): seq<Part> {
    match a.kind
    case KindBool =>
      if spec.kind == 's' then [AsText(StrText(Cut(BoolText(a), spec.precision), spec))]
      else [AsInt(a.number, 32, false, spec)]
    case KindChar => CharParts(a.number, spec)
    case KindCString =>
      if a.number != 0 then [ShowPart(a, spec, doubles)]
      else [AsText(StrText(Cut(if spec.kind == 'p' then "(nil)" else "(null)", spec.precision), spec))]
    case KindPointer =>
      if a.number != 0 then [ShowPart(a, spec, doubles)] else [AsText(StrText(Cut("(nil)", spec.precision), spec))]
    case _ => [ShowPart(a, spec, doubles)]
  }

  /** Appends an argument that can be shown under printf. */
  method ShowPrintf(buffer: MemoryBuffer, a: Argument, spec: Spec, sep: string, doubles: Shower)
    requires buffer.Valid() && InRange(a) && PrintfFault(a, spec) == None
    modifies buffer, buffer.ptr
    ensures buffer.Valid() && (buffer.ptr == old(buffer.ptr) || fresh(buffer.ptr))
    ensures Appends(old(buffer.Contents()), old(buffer.Room()), buffer.Contents(), buffer.Room(),
                    PrintfParts(a, spec, doubles), sep)
  {
    if a.kind == KindBool {
      if spec.kind == 's' {
        ShowStr(buffer, Cut(BoolText(a), spec.precision), spec, sep);
      } else {
        ShowInt(buffer, a.number, 32, false, spec, sep);
      }
    } else if a.kind == KindChar {
      ShowPrintfChar(buffer, a.number, spec, sep);
    } else if a.number == 0 && a.kind == KindCString {
      ShowStr(buffer, Cut(if spec.kind == 'p' then "(nil)" else "(null)", spec.precision), spec, sep);
    } else if a.number == 0 && a.kind == KindPointer {
      ShowStr(buffer, Cut("(nil)", spec.precision), spec, sep);
    } else {
      Show(buffer, a, spec, sep, doubles);
    }
  }

  method ShowPrintfChar(buffer: MemoryBuffer, n: int, spec: Spec, sep: string)
    requires buffer.Valid() && -128 <= n < 128 && (spec.kind in {NUL, 'c'} || KnownKind(spec.kind))
    modifies buffer, buffer.ptr
    ensures buffer.Valid() && (buffer.ptr == old(buffer.ptr) || fresh(buffer.ptr))
    ensures Appends(old(buffer.Contents()), old(buffer.Room()), buffer.Contents(), buffer.Room(), CharParts(n, spec), sep)
  {
    ghost var before, r := buffer.Contents(), buffer.Room();
    ghost var number := if spec.kind != NUL && spec.kind != 'c' then [AsInt(n, 32, true, spec)] else [];
    NoParts(before, r, sep);
    if spec.kind != NUL && spec.kind != 'c' {
      ShowInt(buffer, n, 32, true, spec, sep);
    }
    ghost var middle, r1 := buffer.Contents(), buffer.Room();
    ShowStr(buffer, [CharOf(n)], CharSpec(spec), sep);
    AppendsJoin(before, r, middle, r1, buffer.Contents(), buffer.Room(), number,
                [AsText(StrText([CharOf(n)], CharSpec(spec)))], sep);
  }
}
