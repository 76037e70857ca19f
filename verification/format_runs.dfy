/** What holds of every formatting run. */
module FormatRuns {
  import opened Options
  import opened ArgLists
  import opened FormatIntegers
  import opened WriteIntegers
  import opened FormatterBases
  import opened Rendering
  import opened OutputPieces
  import opened BasicFormatters

  // ---- one indexing mode per run -------------------------------------------------------------------

  lemma ArgContinues(f: CString, s: nat, args: seq<Argument>, b: Base)
    requires s <= |f| && Consistent(args, b) && ArgAt(f, s, args, b).Moved?
    ensures var r := ArgAt(f, s, args, b);
      && Continues(args, b, r.base)
      && |r.base.got| == |b.got| + 1 && r.base.got[|b.got|].arg == r.value
  {
    var q := if IsNameStart(CharAt(f, s)) then Name(f[s..NameEnd(f, s + 1)])
             else if DigitAt(f, s) then Index(NumberAt(f, s).value) else Next;
    FetchKeepsConsistent(args, b, q);
    FetchRecords(args, b, q);
  }

  lemma NestedContinues(f: CString, s: nat, args: seq<Argument>, b: Base, negative: Fault, notInteger: Fault)
    requires s <= |f| && Consistent(args, b) && NestedAt(f, s, args, b, negative, notInteger).Moved?
    ensures Continues(args, b, NestedAt(f, s, args, b, negative, notInteger).base)
  {
    ArgContinues(f, s, args, b);
  }

  lemma WidthBase(f: CString, s: nat, args: seq<Argument>, b: Base, spec: Spec)
    requires s <= |f| && b.next >= -1 && WidthAt(f, s, args, b, spec).Moved?
    ensures var r := WidthAt(f, s, args, b, spec).base;
      if !DigitAt(f, s) && CharAt(f, s) == '{' then
        NestedAt(f, s + 1, args, b, NegativeWidth, WidthNotInteger).Moved?
        && r == NestedAt(f, s + 1, args, b, NegativeWidth, WidthNotInteger).base
      else r == b
  {
  }

  lemma WidthContinues(f: CString, s: nat, args: seq<Argument>, b: Base, spec: Spec)
    requires s <= |f| && Consistent(args, b) && WidthAt(f, s, args, b, spec).Moved?
    ensures Continues(args, b, WidthAt(f, s, args, b, spec).base)
  {
    WidthBase(f, s, args, b, spec);
    if !DigitAt(f, s) && CharAt(f, s) == '{' {
      NestedContinues(f, s + 1, args, b, NegativeWidth, WidthNotInteger);
    }
  }

  lemma PrecisionValueContinues(f: CString, s: nat, args: seq<Argument>, b: Base)
    requires s <= |f| && Consistent(args, b) && PrecisionValueAt(f, s, args, b).Moved?
    ensures Continues(args, b, PrecisionValueAt(f, s, args, b).base)
  {
    if !DigitAt(f, s) && CharAt(f, s) == '{' {
      NestedContinues(f, s + 1, args, b, NegativePrecision, PrecisionNotInteger);
    }
  }

  lemma PrecisionBase(f: CString, s: nat, arg: Argument, args: seq<Argument>, b: Base, spec: Spec)
    requires s <= |f| && b.next >= -1 && PrecisionAt(f, s, arg, args, b, spec).Moved?
    ensures var r := PrecisionAt(f, s, arg, args, b, spec).base;
      if CharAt(f, s) == '.' then
        PrecisionValueAt(f, s + 1, args, b).Moved? && r == PrecisionValueAt(f, s + 1, args, b).base
      else r == b
  {
  }

  lemma PrecisionContinues(f: CString, s: nat, arg: Argument, args: seq<Argument>, b: Base, spec: Spec)
    requires s <= |f| && Consistent(args, b) && PrecisionAt(f, s, arg, args, b, spec).Moved?
    ensures Continues(args, b, PrecisionAt(f, s, arg, args, b, spec).base)
  {
    PrecisionBase(f, s, arg, args, b, spec);
    if CharAt(f, s) == '.' {
      PrecisionValueContinues(f, s + 1, args, b);
      ContinuesAs(args, b, PrecisionValueAt(f, s + 1, args, b).base, PrecisionAt(f, s, arg, args, b, spec).base);
    }
  }

  lemma ContinuesAs(args: seq<Argument>, b: Base, c: Base, d: Base)
    requires Continues(args, b, c) && d == c
    ensures Continues(args, b, d)
  {
  }

  lemma SizesContinue(f: CString, s: nat, arg: Argument, args: seq<Argument>, b: Base, spec: Spec)
    requires s <= |f| && Consistent(args, b) && SizesAt(f, s, arg, args, b, spec).Moved?
    ensures Continues(args, b, SizesAt(f, s, arg, args, b, spec).base)
  {
    var w := WidthAt(f, s, args, b, spec);
    WidthContinues(f, s, args, b, spec);
    PrecisionContinues(f, w.pos, arg, args, w.base, w.value);
  }

  lemma SpecContinues(f: CString, s: nat, arg: Argument, args: seq<Argument>, b: Base)
    requires s <= |f| && Consistent(args, b) && SpecAt(f, s, arg, args, b).Moved?
    ensures Continues(args, b, SpecAt(f, s, arg, args, b).base)
  {
    if CharAt(f, s) == ':' {
      var flags := FlagsAt(f, s + 1, arg);
      SizesContinue(f, flags.pos, arg, args, b, flags.value);
    }
  }

  lemma FieldContinues(f: CString, s: nat, args: seq<Argument>, b: Base)
    requires s <= |f| && Consistent(args, b) && FieldAt(f, s, args, b).Moved?
    ensures var r := FieldAt(f, s, args, b);
      && Continues(args, b, r.base) && |b.got| < |r.base.got|
      && r.value.Field? && r.value.from == |b.got| && r.base.got[|b.got|].arg == r.value.arg
  {
    var a := ArgAt(f, s, args, b);
    ArgContinues(f, s, args, b);
    SpecContinues(f, a.pos, a.value, args, a.base);
    var c := SpecAt(f, a.pos, a.value, args, a.base).base;
    assert c.got[..|a.base.got|] == a.base.got;
    assert c.got[..|b.got|] == c.got[..|a.base.got|][..|b.got|];
  }

  lemma FieldsReadFields(f: CString, args: seq<Argument>)
    ensures ReadsFields(f, args, Fields(f, args))
  {
    forall s: nat, b: Base | s < |f| && Consistent(args, b) ensures ReadsField(args, b, Fields(f, args)(s, b)) {
      FieldReadsField(f, s, args, b);
    }
  }

  lemma FieldReadsField(f: CString, s: nat, args: seq<Argument>, b: Base)
    requires s < |f| && Consistent(args, b)
    ensures ReadsField(args, b, Fields(f, args)(s, b))
  {
    FieldRead(f, args, s, b);
    if f[s] != '}' && FieldAt(f, s + 1, args, b).Moved? {
      FieldContinues(f, s + 1, args, b);
    }
  }

  lemma FieldRead(f: CString, args: seq<Argument>, s: nat, b: Base)
    requires s < |f| && b.next >= -1
    ensures Fields(f, args)(s, b) == if f[s] == '}' then Stopped(UnmatchedBrace) else FieldAt(f, s + 1, args, b)
  {
    assert Asked(s, b);
  }

  /**
   * A run that succeeds has used one indexing mode: either its fetches, nested ones included, were the
   * arguments from the first on, or each named its argument. Every field shows what it fetched.
   */
  lemma OneModePerRun(f: CString, args: seq<Argument>)
    requires Format(f, args).Done?
    ensures Consistent(args, Format(f, args).base)
    ensures Traceable(Format(f, args).pieces, 0, Format(f, args).base)
  {
    FieldsReadFields(f, args);
    ScanContinues(f, BRACES, Fields(f, args), 0, 0, args, Base(0, []));
  }

  /** Any text with its braces doubled comes out as it is, and no argument is fetched. */
  lemma DoubledBracesReproduce(t: CString, args: seq<Argument>)
    ensures NUL !in Doubled(t, {'{', '}'})
    ensures var r := Format(Doubled(t, {'{', '}'}), args);
      r.Done? && r.base == Base(0, []) && AllText(r.pieces) == Some(t)
  {
    DoubledIsCString(t, BRACES);
    var f: CString := Doubled(t, BRACES);
    DoubledScan(f, BRACES, Fields(f, args), 0, 0, t, Base(0, []));
    assert f[0..0] + t == t;
  }

  // ---- two fixed strings ---------------------------------------------------------------------------

  predicate IsSize(a: Argument) {
    a.kind in {KindInt, KindUInt, KindLongLong, KindULongLong} && 0 <= a.number <= INT_MAX
  }

  lemma FirstField(f: CString, args: seq<Argument>, b: Base, r: Traced<Piece>)
    requires |f| >= 1 && f[0] == '{' && b.next >= -1 && FieldAt(f, 1, args, b) == r
    ensures Fields(f, args)(0, b) == r
  {
    assert Asked(0, b);
  }

  /** A format string whose first field is refused. */
  lemma FormatOneFault(f: CString, args: seq<Argument>, fault: Fault)
    requires |f| >= 2 && f[0] == '{' && f[1] != '{' && FieldAt(f, 1, args, Base(0, [])) == Stopped(fault)
    ensures Format(f, args) == Failed(fault)
  {
    FirstField(f, args, Base(0, []), Stopped(fault));
    FaultFirst(f, args, fault);
  }

  lemma FaultFirst(f: CString, args: seq<Argument>, fault: Fault)
    requires |f| >= 2 && f[0] == '{' && f[1] != '{' && Fields(f, args)(0, Base(0, [])) == Stopped(fault)
    ensures Format(f, args) == Failed(fault)
  {
    OneFault(f, BRACES, Fields(f, args), Base(0, []), fault);
  }

  /** A format string that is one field. */
  lemma FormatOneField(f: CString, args: seq<Argument>, field: Piece, c: Base)
    requires |f| >= 2 && f[0] == '{' && f[1] != '{' && c.next >= -1
    requires FieldAt(f, 1, args, Base(0, [])) == Moved(field, |f|, c)
    ensures Format(f, args) == Done([field], c)
  {
    FirstField(f, args, Base(0, []), Moved(field, |f|, c));
    FieldOnly(f, args, field, c);
  }

  lemma FieldOnly(f: CString, args: seq<Argument>, field: Piece, c: Base)
    requires |f| >= 2 && f[0] == '{' && f[1] != '{' && c.next >= -1
    requires Fields(f, args)(0, Base(0, [])) == Moved(field, |f|, c)
    ensures Format(f, args) == Done([field], c)
  {
    OneField(f, BRACES, Fields(f, args), Base(0, []), field, c);
  }

  const NESTED: CString := "{:{}.{}}"

  lemma NestedWidth(args: seq<Argument>, b: Base, w: Argument, spec: Spec)
    requires b.next == 1 && |args| >= 2 && args[1] == w && IsSize(w)
    ensures WidthAt(NESTED, 2, args, b, spec)
         == Moved(spec.(width := w.number), 4, Base(2, b.got + [Got(Next, w)]))
  {
    assert ArgAt(NESTED, 3, args, b) == Moved(w, 3, Base(2, b.got + [Got(Next, w)]));
    assert NestedAt(NESTED, 3, args, b, NegativeWidth, WidthNotInteger)
      == Moved(w.number, 4, Base(2, b.got + [Got(Next, w)]));
  }

  lemma NestedPrecision(args: seq<Argument>, b: Base, v: Argument, p: Argument, spec: Spec)
    requires b.next == 2 && |args| >= 3 && args[2] == p && IsSize(p) && TakesPrecision(v)
    ensures PrecisionAt(NESTED, 4, v, args, b, spec)
         == Moved(spec.(precision := p.number), 7, Base(3, b.got + [Got(Next, p)]))
  {
    assert ArgAt(NESTED, 6, args, b) == Moved(p, 6, Base(3, b.got + [Got(Next, p)]));
    assert NestedAt(NESTED, 6, args, b, NegativePrecision, PrecisionNotInteger)
      == Moved(p.number, 7, Base(3, b.got + [Got(Next, p)]));
  }

  lemma NestedSpec(args: seq<Argument>, v: Argument, x: Spec, b1: Base, y: Spec, b2: Base, z: Spec, b3: Base)
    requires b1.next >= -1 && b2.next >= -1 && FlagsAt(NESTED, 2, v) == Go(x, 2)
    requires WidthAt(NESTED, 2, args, b1, x) == Moved(y, 4, b2)
    requires PrecisionAt(NESTED, 4, v, args, b2, y) == Moved(z, 7, b3)
    ensures SpecAt(NESTED, 1, v, args, b1) == Moved(z, 8, b3)
  {
  }

  lemma NestedFlags(v: Argument)
    ensures FlagsAt(NESTED, 2, v) == Go(PLAIN, 2)
  {
  }

  lemma NestedField(args: seq<Argument>, v: Argument, w: Argument, p: Argument)
    requires |args| >= 3 && args[..3] == [v, w, p]
    requires TakesPrecision(v) && IsSize(w) && IsSize(p) && ShowFault(v, PLAIN) == None
    ensures FieldAt(NESTED, 1, args, Base(0, []))
         == Moved(Field(0, v, v, PLAIN.(width := w.number, precision := p.number)), 8,
                  Base(3, [Got(Next, v), Got(Next, w), Got(Next, p)]))
  {
    var b1, b2 := Base(1, [Got(Next, v)]), Base(2, [Got(Next, v), Got(Next, w)]);
    var b3 := Base(3, [Got(Next, v), Got(Next, w), Got(Next, p)]);
    var y := PLAIN.(width := w.number);
    assert args[0] == args[..3][0] && args[1] == args[..3][1] && args[2] == args[..3][2];
    assert ArgAt(NESTED, 1, args, Base(0, [])) == Moved(v, 1, b1);
    NestedFlags(v);
    NestedWidth(args, b1, w, PLAIN);
    assert b1.got + [Got(Next, w)] == b2.got && b2.got + [Got(Next, p)] == b3.got;
    NestedPrecision(args, b2, v, p, y);
    NestedSpec(args, v, PLAIN, b1, y, b2, y.(precision := p.number), b3);
    assert ShowFault(v, y.(precision := p.number)) == ShowFault(v, PLAIN);
  }

  /** The value is fetched first, then the width, then the precision. */
  lemma NestedInOrder(v: Argument, w: Argument, p: Argument, more: seq<Argument>)
    requires TakesPrecision(v) && IsSize(w) && IsSize(p) && ShowFault(v, PLAIN) == None
    ensures Format("{:{}.{}}", [v, w, p] + more)
         == Done([Field(0, v, v, PLAIN.(width := w.number, precision := p.number))],
                 Base(3, [Got(Next, v), Got(Next, w), Got(Next, p)]))
  {
    var args, b3 := [v, w, p] + more, Base(3, [Got(Next, v), Got(Next, w), Got(Next, p)]);
    assert args[..3] == [v, w, p];
    NestedField(args, v, w, p);
    FormatOneField(NESTED, args, Field(0, v, v, PLAIN.(width := w.number, precision := p.number)), b3);
  }

  /**
   * The character behind an empty specification counts as its alignment: `{:}=` aligns numerically,
   * `{}=` does not. A character argument is refused for it.
   */
  lemma AlignmentBehindField(v: Argument, more: seq<Argument>)
    requires ShowFault(v, PLAIN) == None
    ensures Format("{:}=", [v] + more)
         == if v.kind == KindChar then Failed(InvalidForChar)
            else Done([Field(0, v, v, PLAIN.(align := AlignNumeric)), Text("=")], Base(1, [Got(Next, v)]))
    ensures Format("{}=", [v] + more) == Done([Field(0, v, v, PLAIN), Text("=")], Base(1, [Got(Next, v)]))
  {
    EmptyColonField(v, [v] + more);
    PlainField(v, [v] + more);
  }

  const COLON_FIELD: CString := "{:}="
  const PLAIN_FIELD: CString := "{}="

  lemma EmptyColonField(v: Argument, args: seq<Argument>)
    requires ShowFault(v, PLAIN) == None && |args| >= 1 && args[0] == v
    ensures Format(COLON_FIELD, args)
         == if v.kind == KindChar then Failed(InvalidForChar)
            else Done([Field(0, v, v, PLAIN.(align := AlignNumeric)), Text("=")], Base(1, [Got(Next, v)]))
  {
    var f, b0, b, spec := COLON_FIELD, Base(0, []), Base(1, [Got(Next, v)]), PLAIN.(align := AlignNumeric);
    assert ArgAt(f, 1, args, b0) == Moved(v, 1, b);
    assert SpecAt(f, 1, v, args, b) == Moved(spec, 3, b);
    ShowFaultOfAlign(v);
    if v.kind != KindChar {
      assert Fields(f, args)(0, b0) == Moved(Field(0, v, v, spec), 3, b);
      FieldAndChar(f, BRACES, Fields(f, args), b0, Field(0, v, v, spec), b);
    } else {
      assert Fields(f, args)(0, b0) == Stopped(InvalidForChar);
    }
  }

  lemma ShowFaultOfAlign(v: Argument)
    requires ShowFault(v, PLAIN) == None
    ensures ShowFault(v, PLAIN.(align := AlignNumeric)) == if v.kind == KindChar then Some(InvalidForChar) else None
  {
  }

  lemma PlainField(v: Argument, args: seq<Argument>)
    requires ShowFault(v, PLAIN) == None && |args| >= 1 && args[0] == v
    ensures Format(PLAIN_FIELD, args) == Done([Field(0, v, v, PLAIN), Text("=")], Base(1, [Got(Next, v)]))
  {
    var f, b0, b := PLAIN_FIELD, Base(0, []), Base(1, [Got(Next, v)]);
    assert ArgAt(f, 1, args, b0) == Moved(v, 1, b);
    assert SpecAt(f, 1, v, args, b) == Moved(PLAIN, 2, b);
    assert Fields(f, args)(0, b0) == Moved(Field(0, v, v, PLAIN), 2, b);
    FieldAndChar(f, BRACES, Fields(f, args), b0, Field(0, v, v, PLAIN), b);
  }
}
