/** `write_int`: an integer in base 2, 8, 10 or 16, laid out in a field of the output buffer. */
module WriteIntegers {
  import opened Arithmetic
  import opened Numerals
  import opened CountDigits
  import opened DecimalPrinter
  import opened Buffers

  datatype Alignment = AlignDefault | AlignLeft | AlignRight | AlignCenter | AlignNumeric

  /** Format specification; `precision` is negative when absent and `kind` is `'\0'` when absent. */
  datatype Spec = Spec(
    width: nat, fill: char, align: Alignment, precision: int,
    sign: bool, plus: bool, minus: bool, hash: bool, kind: char)

  /** The capacity a writer's buffer starts with. */
  const INLINE_BUFFER_SIZE: nat := 500

  /** What goes in front of the digits and behind them. */
  datatype Frame = Frame(left: string, right: string)

  function Repeat(c: char, n: nat): (s: string)
    ensures |s| == n
  {
    seq(n, _ => c)
  }

  /** The layout when the precision adds no zeros. */
  function PlainFrame(d: nat, width: nat, fill: char, align: Alignment, prefix: string): Frame {
    if width <= |prefix| + d then Frame(prefix, "")
    else
      var pad := width - |prefix| - d;
      match align
      case AlignLeft => Frame(prefix, Repeat(fill, pad))
      case AlignCenter => Frame(Repeat(fill, pad / 2) + prefix, Repeat(fill, pad - pad / 2))
      case AlignNumeric => Frame(prefix + Repeat(fill, pad), "")
      case _ => Frame(Repeat(fill, pad) + prefix, "")
  }

  /** The octal prefix counts as a digit, so it goes when the precision asks for more digits. */
  function PrefixWithPrecision(prefix: string): string {
    if prefix != "" && prefix[|prefix| - 1] == '0' then prefix[..|prefix| - 1] else prefix
  }

  function IntFrame(d: nat, spec: Spec, prefix: string): Frame {
    if spec.precision > d then
      var number := PrefixWithPrecision(prefix) + Repeat('0', spec.precision - d);
      if |number| + d >= spec.width then Frame(number, "")
      else
        var pad := Repeat(spec.fill, spec.width - |number| - d);
        if spec.align == AlignLeft then Frame(number, pad) else Frame(pad + number, "")
    else PlainFrame(d, spec.width, spec.fill, spec.align, prefix)
  }

  /** The field is as wide as asked for, or as its prefix and digits need. */
  lemma FrameWidth(d: nat, spec: Spec, prefix: string)
    ensures var f := IntFrame(d, spec, prefix);
      var p := if spec.precision > d then |PrefixWithPrecision(prefix)| + spec.precision else |prefix| + d;
      |f.left| + d + |f.right| == if spec.width > p then spec.width else p
  {
  }

  /**
   * Whether the storage the digits are to be written into is still the buffer's when the trailing
   * fill of a left-aligned number with a precision has been added: `reserve` asked for the width
   * alone, so with text already in the buffer the fill may move it.
   */
  predicate StaysPut(size: nat, capacity: nat, d: nat, spec: Spec, prefix: string) {
    var numberSize := |PrefixWithPrecision(prefix)| + if spec.precision > 0 then spec.precision else 0;
    spec.precision > d && numberSize < spec.width && spec.align == AlignLeft ==>
      size + spec.width <= CapacityFor(CapacityFor(capacity, spec.width), size + numberSize)
  }

  /** What `prepare_int_buffer` makes of the capacity, in one, two or three requests. */
  function CapacityAfter(size: nat, capacity: nat, d: nat, spec: Spec, prefix: string): nat {
    if spec.precision > d then
      var number := |PrefixWithPrecision(prefix)| + spec.precision;
      if number >= spec.width then CapacityFor(capacity, size + number)
      else
        var first := if spec.align == AlignLeft then number else spec.width - number;
        CapacityFor(CapacityFor(CapacityFor(capacity, spec.width), size + first), size + spec.width)
    else CapacityFor(capacity, size + if spec.width > |prefix| + d then spec.width else |prefix| + d)
  }

  /** Room enough for the field from the start is room enough. */
  lemma EnoughRoomStaysPut(size: nat, capacity: nat, d: nat, spec: Spec, prefix: string)
    requires size + spec.width <= capacity
    ensures StaysPut(size, capacity, d, spec, prefix)
  {
  }

  /**
   * `%-6.3d` of a one-digit number after 497 characters in the 500 a writer starts with: reserving six
   * leaves the storage as it is, the number fits into it, and the fill does not.
   */
  lemma SomeFieldMoves()
    ensures !StaysPut(497, INLINE_BUFFER_SIZE, 1, Spec(6, ' ', AlignLeft, 3, false, false, false, false, 'd'), "")
  {
  }

  // ---- the buffer operations -------------------------------------------------------------------

  method GrowBuffer(buffer: MemoryBuffer, n: nat) returns (start: nat)
    requires buffer.Valid()
    modifies buffer
    ensures buffer.Valid() && (buffer.ptr == old(buffer.ptr) || fresh(buffer.ptr))
    ensures buffer.ptr == old(buffer.ptr) <==> old(buffer.size) + n <= old(buffer.ptr.Length)
    ensures buffer.ptr.Length == CapacityFor(old(buffer.ptr.Length), old(buffer.size) + n)
    ensures start == old(buffer.size) && buffer.size == start + n
    ensures forall i | 0 <= i < start :: buffer.ptr[i] == old(buffer.ptr[i])
  {
    start := buffer.size;
    ghost var before := buffer.Contents();
    buffer.Resize(start + n);
    assert forall i | 0 <= i < start :: buffer.ptr[i] == buffer.Contents()[i] == before[i];
  }

  method FillRange(target: array<char>, from: nat, to: nat, c: char)
    requires from <= to <= target.Length
    modifies target
    ensures forall i | from <= i < to :: target[i] == c
    ensures forall i | 0 <= i < from || to <= i < target.Length :: target[i] == old(target[i])
  {
    forall i | from <= i < to {
      target[i] := c;
    }
  }

  method CopyTo(target: array<char>, at: nat, text: string)
    requires at + |text| <= target.Length
    modifies target
    ensures forall i | 0 <= i < |text| :: target[at + i] == text[i]
    ensures forall i | 0 <= i < at || at + |text| <= i < target.Length :: target[i] == old(target[i])
  {
    forall i | 0 <= i < |text| {
      target[at + i] := text[i];
    }
  }

  /** The buffer now holds `before`, then a frame around `d` characters not yet written. */
  ghost predicate Framed(text: string, before: string, f: Frame, d: nat) {
    && |text| == |before| + |f.left| + d + |f.right|
    && (forall i | 0 <= i < |before| :: text[i] == before[i])
    && (forall i | 0 <= i < |f.left| :: text[|before| + i] == f.left[i])
    && (forall i | 0 <= i < |f.right| :: text[|before| + |f.left| + d + i] == f.right[i])
  }

  /** Lays fill and prefix around the digits of a field that is wider than they are. */
  method LayPlain(target: array<char>, p: nat, d: nat, width: nat, fill: char, align: Alignment, prefix: string)
    returns (last: nat)
    requires d >= 1 && width > |prefix| + d && p + width <= target.Length
    modifies target
    ensures var f := PlainFrame(d, width, fill, align, prefix);
      && last == p + |f.left| + d - 1
      && (forall i | 0 <= i < |f.left| :: target[p + i] == f.left[i])
      && (forall i | 0 <= i < |f.right| :: target[p + |f.left| + d + i] == f.right[i])
    ensures forall i | 0 <= i < p || p + width <= i < target.Length :: target[i] == old(target[i])
  {
    var end := p + width;
    var size := |prefix| + d;
    if align == AlignLeft {
      CopyTo(target, p, prefix);
      FillRange(target, p + size, end, fill);
      last := p + size - 1;
    } else if align == AlignCenter {
      var padding := width - size;
      var content := p + padding / 2;
      FillRange(target, p, content, fill);
      FillRange(target, content + size, end, fill);
      CopyTo(target, content, prefix);
      last := content + size - 1;
    } else if align == AlignNumeric {
      CopyTo(target, p, prefix);
      FillRange(target, p + |prefix|, end - d, fill);
      last := end - 1;
    } else {
      CopyTo(target, end - size, prefix);
      FillRange(target, p, end - size, fill);
      last := end - 1;
    }
  }

  lemma ArrayFramed(a: array<char>, size: nat, before: string, f: Frame, d: nat)
    requires size <= a.Length && size == |before| + |f.left| + d + |f.right|
    requires forall i | 0 <= i < |before| :: a[i] == before[i]
    requires forall i | 0 <= i < |f.left| :: a[|before| + i] == f.left[i]
    requires forall i | 0 <= i < |f.right| :: a[|before| + |f.left| + d + i] == f.right[i]
    ensures Framed(a[..size], before, f, d)
  {
  }

  lemma PlainFrameWidth(d: nat, width: nat, fill: char, align: Alignment, prefix: string)
    ensures var f := PlainFrame(d, width, fill, align, prefix);
      |f.left| + d + |f.right| == if width <= |prefix| + d then |prefix| + d else width
  {
  }

  /** The second half of `prepare_int_buffer`: no zeros from the precision. Returns the last digit's place. */
  method PreparePlain(buffer: MemoryBuffer, d: nat, width: nat, fill: char, align: Alignment, prefix: string)
    returns (last: nat)
    requires buffer.Valid() && d >= 1
    modifies buffer, buffer.ptr
    ensures buffer.Valid() && (buffer.ptr == old(buffer.ptr) || fresh(buffer.ptr))
    ensures var f := PlainFrame(d, width, fill, align, prefix);
      && Framed(buffer.Contents(), old(buffer.Contents()), f, d)
      && last == old(buffer.size) + |f.left| + d - 1
    ensures var total := if width <= |prefix| + d then |prefix| + d else width;
      && (buffer.ptr == old(buffer.ptr) <==> old(buffer.size) + total <= old(buffer.ptr.Length))
      && buffer.ptr.Length == CapacityFor(old(buffer.ptr.Length), old(buffer.size) + total)
  {
    ghost var before := buffer.Contents();
    var size := |prefix| + d;
    PlainFrameWidth(d, width, fill, align, prefix);
    if width <= size {
      var p := GrowBuffer(buffer, size);
      CopyTo(buffer.ptr, p, prefix);
      last := p + size - 1;
    } else {
      var p := GrowBuffer(buffer, width);
      last := LayPlain(buffer.ptr, p, d, width, fill, align, prefix);
    }
    ArrayFramed(buffer.ptr, buffer.size, before, PlainFrame(d, width, fill, align, prefix), d);
  }

  /**
   * Makes room for `d` digits with everything around them in place, and returns where the last digit
   * goes: an index into `target`, which is the buffer's storage unless the trailing fill has moved it.
   */
  method PrepareIntBuffer(buffer: MemoryBuffer, d: nat, spec: Spec, prefix: string)
    returns (target: array<char>, last: nat)
    requires buffer.Valid() && d >= 1
    modifies buffer, buffer.ptr
    ensures buffer.Valid() && (buffer.ptr == old(buffer.ptr) || fresh(buffer.ptr))
    ensures (target == old(buffer.ptr) || fresh(target)) && last < target.Length
    ensures Prepared(old(buffer.Contents()), old(buffer.ptr.Length), buffer.Contents(), buffer.ptr.Length, last,
                     target == buffer.ptr, d, spec, prefix)
  {
    if spec.precision > d {
      last, target := PrepareWithPrecision(buffer, d, spec, prefix);
    } else {
      last := PreparePlain(buffer, d, spec.width, spec.fill, spec.align, prefix);
      target := buffer.ptr;
    }
  }

  /** The first half of `prepare_int_buffer`: the precision asks for leading zeros. */
  method PrepareWithPrecision(buffer: MemoryBuffer, d: nat, spec: Spec, prefix: string)
    returns (last: nat, target: array<char>)
    requires buffer.Valid() && d >= 1 && spec.precision > d
    modifies buffer, buffer.ptr
    ensures buffer.Valid() && (buffer.ptr == old(buffer.ptr) || fresh(buffer.ptr))
    ensures (target == old(buffer.ptr) || fresh(target)) && last < target.Length
    ensures Prepared(old(buffer.Contents()), old(buffer.ptr.Length), buffer.Contents(), buffer.ptr.Length, last,
                     target == buffer.ptr, d, spec, prefix)
  {
    var shortened := PrefixWithPrecision(prefix);
    var number: nat := |shortened| + spec.precision;
    if number >= spec.width {
      last, target := NumberAlone(buffer, d, number, spec, prefix, shortened);
    } else if spec.align == AlignLeft {
      last, target := NumberLeft(buffer, d, number, spec, prefix, shortened);
    } else {
      last, target := NumberRight(buffer, d, number, spec, prefix, shortened);
    }
  }

  method NumberAlone(buffer: MemoryBuffer, d: nat, number: nat, spec: Spec, prefix: string, shortened: string)
    returns (last: nat, target: array<char>)
    requires buffer.Valid() && d >= 1 && spec.precision > d && shortened == PrefixWithPrecision(prefix)
    requires number == |shortened| + spec.precision >= spec.width
    modifies buffer, buffer.ptr
    ensures buffer.Valid() && (buffer.ptr == old(buffer.ptr) || fresh(buffer.ptr))
    ensures (target == old(buffer.ptr) || fresh(target)) && last < target.Length
    ensures Prepared(old(buffer.Contents()), old(buffer.ptr.Length), buffer.Contents(), buffer.ptr.Length, last,
                     target == buffer.ptr, d, spec, prefix)
  {
    ghost var before, capacity := buffer.Contents(), buffer.ptr.Length;
    ghost var f := Numbered(d, spec.precision, shortened);
    last := PrepareNumber(buffer, d, number, shortened, f);
    target := buffer.ptr;
    PreparedAlone(before, capacity, buffer.Contents(), buffer.ptr.Length, last, d, spec, prefix);
  }

  method NumberLeft(buffer: MemoryBuffer, d: nat, number: nat, spec: Spec, prefix: string, shortened: string)
    returns (last: nat, target: array<char>)
    requires buffer.Valid() && d >= 1 && spec.precision > d && shortened == PrefixWithPrecision(prefix)
    requires number == |shortened| + spec.precision < spec.width && spec.align == AlignLeft
    modifies buffer, buffer.ptr
    ensures buffer.Valid() && (buffer.ptr == old(buffer.ptr) || fresh(buffer.ptr))
    ensures (target == old(buffer.ptr) || fresh(target)) && last < target.Length
    ensures Prepared(old(buffer.Contents()), old(buffer.ptr.Length), buffer.Contents(), buffer.ptr.Length, last,
                     target == buffer.ptr, d, spec, prefix)
  {
    ghost var before, capacity := buffer.Contents(), buffer.ptr.Length;
    ghost var f := Numbered(d, spec.precision, shortened);
    last, target := PrepareThenFill(buffer, d, number, spec.width, spec.fill, shortened, f);
    PreparedLeft(before, capacity, buffer.Contents(), buffer.ptr.Length, last, target == buffer.ptr, d, spec, prefix);
  }

  method NumberRight(buffer: MemoryBuffer, d: nat, number: nat, spec: Spec, prefix: string, shortened: string)
    returns (last: nat, target: array<char>)
    requires buffer.Valid() && d >= 1 && spec.precision > d && shortened == PrefixWithPrecision(prefix)
    requires number == |shortened| + spec.precision < spec.width && spec.align != AlignLeft
    modifies buffer, buffer.ptr
    ensures buffer.Valid() && (buffer.ptr == old(buffer.ptr) || fresh(buffer.ptr))
    ensures (target == old(buffer.ptr) || fresh(target)) && last < target.Length
    ensures Prepared(old(buffer.Contents()), old(buffer.ptr.Length), buffer.Contents(), buffer.ptr.Length, last,
                     target == buffer.ptr, d, spec, prefix)
  {
    ghost var before, capacity := buffer.Contents(), buffer.ptr.Length;
    ghost var f := Numbered(d, spec.precision, shortened);
    last := FillThenPrepare(buffer, d, number, spec.width, spec.fill, shortened, f);
    target := buffer.ptr;
    PreparedRight(before, capacity, buffer.Contents(), buffer.ptr.Length, last, d, spec, prefix);
  }

  /** What preparing a field does to the text and the capacity, and whether the digits' place stays. */
  ghost predicate Prepared(before: string, capacity: nat, after: string, capacity': nat, last: nat, stays: bool,
                           d: nat, spec: Spec, prefix: string) {
    && Framed(after, before, IntFrame(d, spec, prefix), d)
    && last == |before| + |IntFrame(d, spec, prefix).left| + d - 1
    && capacity' == CapacityAfter(|before|, capacity, d, spec, prefix)
    && (stays <==> StaysPut(|before|, capacity, d, spec, prefix))
  }

  lemma PreparedAlone(before: string, capacity: nat, after: string, capacity': nat, last: nat, d: nat, spec: Spec,
                      prefix: string)
    requires d >= 1 && spec.precision > d
    requires var shortened := PrefixWithPrecision(prefix); var number := |shortened| + spec.precision;
      var f := Numbered(d, spec.precision, shortened);
      && number >= spec.width && Framed(after, before, f, d) && last == |before| + |f.left| + d - 1
      && capacity' == CapacityFor(capacity, |before| + number)
    ensures Prepared(before, capacity, after, capacity', last, true, d, spec, prefix)
  {
  }

  lemma PreparedLeft(before: string, capacity: nat, after: string, capacity': nat, last: nat, stays: bool, d: nat,
                     spec: Spec, prefix: string)
    requires d >= 1 && spec.precision > d && spec.align == AlignLeft
    requires var shortened := PrefixWithPrecision(prefix); var number := |shortened| + spec.precision;
      var f := Numbered(d, spec.precision, shortened);
      && number < spec.width && last == |before| + |f.left| + d - 1
      && Framed(after, before, Frame(f.left, Repeat(spec.fill, spec.width - number)), d)
      && capacity' == CapacityFor(CapacityFor(CapacityFor(capacity, spec.width), |before| + number), |before| + spec.width)
      && (stays <==> |before| + spec.width <= CapacityFor(CapacityFor(capacity, spec.width), |before| + number))
    ensures Prepared(before, capacity, after, capacity', last, stays, d, spec, prefix)
  {
  }

  lemma PreparedRight(before: string, capacity: nat, after: string, capacity': nat, last: nat, d: nat, spec: Spec,
                      prefix: string)
    requires d >= 1 && spec.precision > d && spec.align != AlignLeft
    requires var shortened := PrefixWithPrecision(prefix); var number := |shortened| + spec.precision;
      var f := Numbered(d, spec.precision, shortened);
      && number < spec.width && last == |before| + (spec.width - number) + |f.left| + d - 1
      && Framed(after, before, Frame(Repeat(spec.fill, spec.width - number) + f.left, ""), d)
      && capacity' == CapacityFor(CapacityFor(CapacityFor(capacity, spec.width), |before| + (spec.width - number)),
                                  |before| + spec.width)
    ensures Prepared(before, capacity, after, capacity', last, true, d, spec, prefix)
  {
  }

  method GrowFill(buffer: MemoryBuffer, n: nat, c: char)
    requires buffer.Valid()
    modifies buffer, buffer.ptr
    ensures buffer.Valid() && (buffer.ptr == old(buffer.ptr) || fresh(buffer.ptr))
    ensures buffer.ptr == old(buffer.ptr) <==> old(buffer.size) + n <= old(buffer.ptr.Length)
    ensures buffer.ptr.Length == CapacityFor(old(buffer.ptr.Length), old(buffer.size) + n)
    ensures buffer.Contents() == old(buffer.Contents()) + Repeat(c, n)
  {
    ghost var before := buffer.Contents();
    var p := GrowBuffer(buffer, n);
    FillRange(buffer.ptr, p, p + n, c);
    assert buffer.Contents() == before + Repeat(c, n);
  }

  /** The number with its zeros, without the field's fill. */
  function Numbered(d: nat, precision: nat, shortened: string): Frame
    requires precision > d
  {
    PlainFrame(d, |shortened| + precision, '0', AlignNumeric, shortened)
  }

  /** The frame of a number of `number` characters, zeros included. */
  ghost predicate NumberFrame(f: Frame, d: nat, number: nat, shortened: string) {
    number > |shortened| + d && f == PlainFrame(d, number, '0', AlignNumeric, shortened)
  }

  method PrepareNumber(buffer: MemoryBuffer, d: nat, number: nat, shortened: string, ghost f: Frame)
    returns (last: nat)
    requires buffer.Valid() && d >= 1 && NumberFrame(f, d, number, shortened)
    modifies buffer, buffer.ptr
    ensures buffer.Valid() && (buffer.ptr == old(buffer.ptr) || fresh(buffer.ptr))
    ensures Framed(buffer.Contents(), old(buffer.Contents()), f, d)
    ensures last == old(buffer.size) + |f.left| + d - 1 && f.right == "" && |f.left| + d == number
    ensures buffer.ptr == old(buffer.ptr) <==> old(buffer.size) + number <= old(buffer.ptr.Length)
    ensures buffer.ptr.Length == CapacityFor(old(buffer.ptr.Length), old(buffer.size) + number)
  {
    PlainFrameWidth(d, number, '0', AlignNumeric, shortened);
    last := PreparePlain(buffer, d, number, '0', AlignNumeric, shortened);
  }

  method FillThenPrepare(buffer: MemoryBuffer, d: nat, number: nat, width: nat, fill: char, shortened: string,
                         ghost f: Frame)
    returns (last: nat)
    requires buffer.Valid() && d >= 1 && number < width && NumberFrame(f, d, number, shortened)
    modifies buffer, buffer.ptr
    ensures buffer.Valid() && (buffer.ptr == old(buffer.ptr) || fresh(buffer.ptr))
    ensures Framed(buffer.Contents(), old(buffer.Contents()), Frame(Repeat(fill, width - number) + f.left, ""), d)
    ensures last == old(buffer.size) + (width - number) + |f.left| + d - 1
    ensures buffer.ptr.Length == CapacityFor(
      CapacityFor(CapacityFor(old(buffer.ptr.Length), width), old(buffer.size) + (width - number)), old(buffer.size) + width)
  {
    ghost var before, pad := buffer.Contents(), Repeat(fill, width - number);
    buffer.Reserve(width);
    GrowFill(buffer, width - number, fill);
    last := PrepareNumber(buffer, d, number, shortened, f);
    PadJoinsFrame(buffer.Contents(), before, pad, f, d);
  }

  lemma PadJoinsFrame(text: string, before: string, pad: string, f: Frame, d: nat)
    requires Framed(text, before + pad, f, d)
    ensures Framed(text, before, Frame(pad + f.left, f.right), d)
  {
    var left := pad + f.left;
    forall i | 0 <= i < |before| ensures text[i] == before[i] {
      assert (before + pad)[i] == before[i];
    }
    forall i | 0 <= i < |left| ensures text[|before| + i] == left[i] {
      if i < |pad| {
        assert (before + pad)[|before| + i] == pad[i];
      } else {
        assert text[|before + pad| + (i - |pad|)] == f.left[i - |pad|];
      }
    }
  }

  method ReserveNumber(buffer: MemoryBuffer, d: nat, number: nat, width: nat, shortened: string, ghost f: Frame)
    returns (last: nat)
    requires buffer.Valid() && d >= 1 && NumberFrame(f, d, number, shortened)
    modifies buffer, buffer.ptr
    ensures buffer.Valid() && (buffer.ptr == old(buffer.ptr) || fresh(buffer.ptr))
    ensures Framed(buffer.Contents(), old(buffer.Contents()), f, d)
    ensures last == old(buffer.size) + |f.left| + d - 1 && f.right == "" && |f.left| + d == number
    ensures buffer.ptr.Length == CapacityFor(CapacityFor(old(buffer.ptr.Length), width), old(buffer.size) + number)
  {
    buffer.Reserve(width);
    last := PrepareNumber(buffer, d, number, shortened, f);
  }

  lemma FillBehind(laid: string, before: string, f: Frame, d: nat, pad: string)
    requires Framed(laid, before, f, d) && f.right == ""
    ensures Framed(laid + pad, before, Frame(f.left, pad), d)
  {
  }

  method PrepareThenFill(buffer: MemoryBuffer, d: nat, number: nat, width: nat, fill: char, shortened: string,
                         ghost f: Frame)
    returns (last: nat, target: array<char>)
    requires buffer.Valid() && d >= 1 && number < width && NumberFrame(f, d, number, shortened)
    modifies buffer, buffer.ptr
    ensures buffer.Valid() && (buffer.ptr == old(buffer.ptr) || fresh(buffer.ptr))
    ensures target == old(buffer.ptr) || fresh(target)
    ensures Framed(buffer.Contents(), old(buffer.Contents()), Frame(f.left, Repeat(fill, width - number)), d)
    ensures last == old(buffer.size) + |f.left| + d - 1 && last < target.Length
    ensures target == buffer.ptr <==>
      old(buffer.size) + width <= CapacityFor(CapacityFor(old(buffer.ptr.Length), width), old(buffer.size) + number)
    ensures buffer.ptr.Length == CapacityFor(
      CapacityFor(CapacityFor(old(buffer.ptr.Length), width), old(buffer.size) + number), old(buffer.size) + width)
  {
    ghost var before := buffer.Contents();
    last := ReserveNumber(buffer, d, number, width, shortened, f);
    target := buffer.ptr;
    FillBehind(buffer.Contents(), before, f, d, Repeat(fill, width - number));
    GrowFill(buffer, width - number, fill);
  }

  // ---- the digits ------------------------------------------------------------------------------

  lemma ShiftedDigits(n: nat, base: nat, upper: bool)
    requires 2 <= base <= 16
    ensures n < base <==> n / base == 0
    ensures n >= base ==> |Digits(n, base)| == |Digits(n / base, base)| + 1
    ensures n >= base ==> n / base < n
    ensures n < base ==> |Digits(n, base)| == 1
    ensures Numeral(n, base, upper)
      == (if n < base then "" else Numeral(n / base, base, upper)) + [DigitChar(n % base, upper)]
  {
    QuotientShrinks(n, base);
    NumeralStep(n, base, upper);
    if n < base {
      QuotientUnique(n, base, 0, n);
      assert "" + [DigitChar(n, upper)] == [DigitChar(n, upper)];
    }
  }

  /** The counting loop of the hexadecimal, binary and octal cases. */
  method CountInBase(value: nat, base: nat) returns (count: nat)
    requires 2 <= base <= 16
    ensures count == |Digits(value, base)|
  {
    var n: nat := value;
    count := 0;
    while true
      invariant count + |Digits(n, base)| == |Digits(value, base)|
      decreases n
    {
      ShiftedDigits(n, base, false);
      count := count + 1;
      n := n / base;
      if n == 0 {
        break;
      }
    }
  }

  /** The writing loop of the same cases, from the last digit backwards. */
  method WriteInBase(target: array<char>, last: nat, value: nat, base: nat, upper: bool)
    requires 2 <= base <= 16 && |Numeral(value, base, upper)| <= last + 1 <= target.Length
    modifies target
    ensures forall i | 0 <= i < |Numeral(value, base, upper)| ::
              target[last + 1 - |Numeral(value, base, upper)| + i] == Numeral(value, base, upper)[i]
    ensures forall i | 0 <= i < last + 1 - |Numeral(value, base, upper)| || last < i < target.Length ::
              target[i] == old(target[i])
  {
    ghost var whole := Numeral(value, base, upper);
    ghost var rest := whole;
    var n: nat := value;
    var p: int := last;
    while true
      invariant rest == Numeral(n, base, upper) && |rest| + last - p == |whole|
      invariant -1 <= p <= last && p + 1 >= |rest|
      invariant forall i | 0 <= i < |rest| :: whole[i] == rest[i]
      invariant forall i | p < i <= last :: target[i] == whole[i - last - 1 + |whole|]
      invariant forall i | 0 <= i <= p || last < i < target.Length :: target[i] == old(target[i])
      decreases n
    {
      ShiftedDigits(n, base, upper);
      var shifted, digit := n / base, DigitChar(n % base, upper);
      ghost var shorter := if n < base then "" else Numeral(shifted, base, upper);
      assert rest == shorter + [digit] && whole[|rest| - 1] == digit;
      target[p] := digit;
      p, n, rest := p - 1, shifted, shorter;
      if n == 0 {
        break;
      }
    }
  }

  // ---- write_int -------------------------------------------------------------------------------

  predicate KnownKind(kind: char) {
    kind in {'\0', 'd', 'x', 'X', 'b', 'B', 'o', 'n'}
  }

  function BaseOf(kind: char): (base: nat)
    ensures 2 <= base <= 16
  {
    if kind == 'x' || kind == 'X' then 16
    else if kind == 'b' || kind == 'B' then 2
    else if kind == 'o' then 8
    else 10
  }

  /** The digits of the magnitude: the minimal numeral in the kind's base, grouped for `n`. */
  function DigitText(magnitude: nat, kind: char, sep: string): (s: string)
    ensures |s| >= 1
  {
    if kind == 'n' then Render(magnitude, 0, "", sep) else Numeral(magnitude, BaseOf(kind), kind == 'X')
  }

  function SignPrefix(value: int, spec: Spec): string {
    if value < 0 then "-" else if spec.sign then (if spec.plus then "+" else " ") else ""
  }

  function BasePrefix(spec: Spec): string {
    if !spec.hash then ""
    else if spec.kind in {'x', 'X', 'b', 'B'} then ['0', spec.kind]
    else if spec.kind == 'o' then "0"
    else ""
  }

  function Magnitude(value: int): nat {
    if value < 0 then -value else value
  }

  function FrameFor(value: int, spec: Spec, sep: string): Frame {
    IntFrame(|DigitText(Magnitude(value), spec.kind, sep)|, spec, SignPrefix(value, spec) + BasePrefix(spec))
  }

  /** The field `write_int` is meant to append. */
  function IntText(value: int, spec: Spec, sep: string): string {
    FrameFor(value, spec, sep).left + DigitText(Magnitude(value), spec.kind, sep) + FrameFor(value, spec, sep).right
  }

  function RoomAfterInt(r: Space, value: int, spec: Spec, sep: string): Space {
    Space(r.size + |IntText(value, spec, sep)|,
          CapacityAfter(r.size, r.capacity, |DigitText(Magnitude(value), spec.kind, sep)|, spec,
                        SignPrefix(value, spec) + BasePrefix(spec)))
  }

  /** The digits go where they belong: exactly when the place found for them is still in the buffer. */
  predicate IntStays(r: Space, value: int, spec: Spec, sep: string) {
    StaysPut(r.size, r.capacity, |DigitText(Magnitude(value), spec.kind, sep)|, spec,
             SignPrefix(value, spec) + BasePrefix(spec))
  }

  function Word(bits: nat): int {
    if bits == 32 then TWO_TO_32 else TWO_TO_64
  }

  /** A 32-bit or 64-bit integer type, signed or not. */
  predicate InType(value: int, bits: nat, signed: bool) {
    && (bits == 32 || bits == 64)
    && (if signed then -Word(bits) <= 2 * value < Word(bits) else 0 <= value < Word(bits))
  }

  /** Negation in unsigned arithmetic takes the magnitude of every value of the type. */
  lemma UnsignedMagnitude(value: int, bits: nat, signed: bool)
    requires InType(value, bits, signed)
    ensures Magnitude(value)
      == (if value < 0 then (0 - value % Word(bits)) % Word(bits) else value % Word(bits)) < Word(bits)
  {
    var word := Word(bits);
    if value < 0 {
      QuotientUnique(value, word, -1, value + word);
      QuotientUnique(-(value + word), word, -1, -value);
    } else {
      QuotientUnique(value, word, 0, value);
    }
  }

  /** The conversion to the unsigned type and the negation there. */
  method TakeMagnitude(value: int, bits: nat, signed: bool) returns (magnitude: nat)
    requires InType(value, bits, signed)
    ensures magnitude == Magnitude(value) < Word(bits)
  {
    UnsignedMagnitude(value, bits, signed);
    magnitude := value % Word(bits);
    if value < 0 {
      magnitude := (0 - magnitude) % Word(bits);
    }
  }

  lemma FieldWritten(text: string, before: string, f: Frame, digits: string)
    requires Framed(text, before, f, |digits|)
    requires forall i | 0 <= i < |digits| :: text[|before| + |f.left| + i] == digits[i]
    ensures text == before + (f.left + digits + f.right)
  {
    var whole := before + (f.left + digits + f.right);
    forall i | 0 <= i < |text| ensures text[i] == whole[i] {
      var j := i - |before| - |f.left|;
      if j >= |digits| {
        assert text[|before| + |f.left| + |digits| + (j - |digits|)] == f.right[j - |digits|];
      } else if j >= 0 {
        assert text[|before| + |f.left| + j] == digits[j];
      } else if i >= |before| {
        assert text[|before| + (i - |before|)] == f.left[i - |before|];
      }
    }
  }

  /** Writes the digits of one kind backwards from `last`. */
  method WriteDigits(target: array<char>, last: nat, magnitude: nat, kind: char, sep: string)
    requires |DigitText(magnitude, kind, sep)| <= last + 1 <= target.Length
    modifies target
    ensures var digits := DigitText(magnitude, kind, sep);
      && (forall i | 0 <= i < |digits| :: target[last + 1 - |digits| + i] == digits[i])
      && (forall i | 0 <= i < last + 1 - |digits| || last < i < target.Length :: target[i] == old(target[i]))
  {
    ghost var digits := DigitText(magnitude, kind, sep);
    if BaseOf(kind) == 10 {
      RenderPlain(magnitude);
      var start := FormatDecimal(target, last + 1, magnitude, if kind == 'n' then sep else "");
      forall i | 0 <= i < |digits| ensures target[last + 1 - |digits| + i] == digits[i] {
        assert target[start..last + 1][i] == digits[i];
      }
    } else {
      WriteInBase(target, last, magnitude, BaseOf(kind), kind == 'X');
    }
  }

  method CountKind(magnitude: nat, bits: nat, kind: char, sep: string) returns (d: nat)
    requires (bits == 32 && magnitude < TWO_TO_32) || (bits == 64 && magnitude < TWO_TO_64)
    ensures d == |DigitText(magnitude, kind, sep)|
  {
    if BaseOf(kind) != 10 {
      d := CountInBase(magnitude, BaseOf(kind));
    } else {
      if bits == 32 {
        CountDigits32Correct(magnitude);
        d := CountDigits32(magnitude);
      } else {
        CountDigits64Correct(magnitude);
        d := CountDigits64(magnitude);
      }
      if kind == 'n' {
        RenderMeaning(magnitude, sep);
        d := d + |sep| * ((d - 1) / 3);
      }
    }
  }

  /**
   * Appends `value` as `spec` asks, or refuses an unknown kind. The field comes out as `IntText`
   * whenever the digits' place stays in the buffer's storage; otherwise everything but the digits does.
   */
  method WriteInt(buffer: MemoryBuffer, value: int, bits: nat, signed: bool, spec: Spec, sep: string)
    returns (ok: bool)
    requires buffer.Valid() && InType(value, bits, signed)
    modifies buffer, buffer.ptr
    ensures buffer.Valid() && (buffer.ptr == old(buffer.ptr) || fresh(buffer.ptr))
    ensures ok <==> KnownKind(spec.kind)
    ensures !ok ==> buffer.Contents() == old(buffer.Contents())
    ensures ok ==> Framed(buffer.Contents(), old(buffer.Contents()), FrameFor(value, spec, sep),
                          |DigitText(Magnitude(value), spec.kind, sep)|)
    ensures ok ==> buffer.Room() == RoomAfterInt(old(buffer.Room()), value, spec, sep)
    ensures ok && IntStays(old(buffer.Room()), value, spec, sep) ==>
      buffer.Contents() == old(buffer.Contents()) + IntText(value, spec, sep)
  {
    var prefix := SignPrefix(value, spec);
    var magnitude := TakeMagnitude(value, bits, signed);
    if !KnownKind(spec.kind) {
      return false;
    }
    prefix := prefix + BasePrefix(spec);
    var d := CountKind(magnitude, bits, spec.kind, sep);
    WriteField(buffer, d, magnitude, spec, prefix, sep);
    ok := true;
  }

  method WriteField(buffer: MemoryBuffer, d: nat, magnitude: nat, spec: Spec, prefix: string, sep: string)
    requires buffer.Valid() && d == |DigitText(magnitude, spec.kind, sep)|
    modifies buffer, buffer.ptr
    ensures buffer.Valid() && (buffer.ptr == old(buffer.ptr) || fresh(buffer.ptr))
    ensures Framed(buffer.Contents(), old(buffer.Contents()), IntFrame(d, spec, prefix), d)
    ensures buffer.ptr.Length == CapacityAfter(old(buffer.size), old(buffer.ptr.Length), d, spec, prefix)
    ensures StaysPut(old(buffer.size), old(buffer.ptr.Length), d, spec, prefix) ==>
      buffer.Contents() == old(buffer.Contents())
        + (IntFrame(d, spec, prefix).left + DigitText(magnitude, spec.kind, sep) + IntFrame(d, spec, prefix).right)
  {
    ghost var before := buffer.Contents();
    ghost var f := IntFrame(d, spec, prefix);
    var target, last := PrepareIntBuffer(buffer, d, spec, prefix);
    FillDigits(buffer, target, last, magnitude, spec.kind, sep, before, f);
  }

  /** Puts the digits into a frame that is already laid, or into the storage the frame has left. */
  method FillDigits(buffer: MemoryBuffer, target: array<char>, last: nat, magnitude: nat, kind: char, sep: string,
                    ghost before: string, ghost f: Frame)
    requires buffer.Valid() && Framed(buffer.Contents(), before, f, |DigitText(magnitude, kind, sep)|)
    requires last + 1 == |before| + |f.left| + |DigitText(magnitude, kind, sep)| <= target.Length
    modifies target
    ensures buffer.Valid()
    ensures Framed(buffer.Contents(), before, f, |DigitText(magnitude, kind, sep)|)
    ensures target == buffer.ptr ==>
      buffer.Contents() == before + (f.left + DigitText(magnitude, kind, sep) + f.right)
  {
    ghost var digits := DigitText(magnitude, kind, sep);
    ghost var laid := buffer.Contents();
    WriteDigits(target, last, magnitude, kind, sep);
    if target == buffer.ptr {
      StillFramed(laid, buffer.Contents(), before, f, |digits|);
      FieldWritten(buffer.Contents(), before, f, digits);
    }
  }

  lemma StillFramed(laid: string, text: string, before: string, f: Frame, d: nat)
    requires Framed(laid, before, f, d) && |text| == |laid|
    requires forall i | 0 <= i < |before| + |f.left| || |before| + |f.left| + d <= i < |text| :: text[i] == laid[i]
    ensures Framed(text, before, f, d)
  {
  }
}
