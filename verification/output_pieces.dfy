/**
 * The loop both formatters share: text is written as it is, a doubled special character stands for
 * itself, and a single one begins a field. What a run writes, and how that relates to what it fetches.
 */
module OutputPieces {
  import opened Options
  import opened WriteIntegers
  import opened FormatterBases

  /**
   * A piece of output: text, or the argument that the fetch numbered `from` brought, shown as `spec`
   * asks, perhaps after a conversion.
   */
  datatype Piece = Text(text: string) | Field(from: nat, arg: Argument, shown: Argument, spec: Spec)

  datatype Outcome = Done(pieces: seq<Piece>, base: Base) | Failed(fault: Fault)

  /** A loop that has gone from `before` to `after` and `base`, or met a fault, has the given outcome. */
  ghost predicate Reached(o: Outcome, fault: Option<Fault>, before: seq<Piece>, after: seq<Piece>, base: Base) {
    match o
    case Done(pieces, b) => fault == None && after == before + pieces && base == b
    case Failed(e) => fault == Some(e)
  }

  /** Writing nothing leaves no piece. */
  function TextPiece(text: string): seq<Piece> {
    if text == "" then [] else [Text(text)]
  }

  function Prepend(ps: seq<Piece>, o: Outcome): Outcome {
    if o.Failed? then o else o.(pieces := ps + o.pieces)
  }

  lemma PrependNothing(o: Outcome)
    ensures Prepend([], o) == o
  {
    if o.Done? {
      assert [] + o.pieces == o.pieces;
    }
  }

  lemma PrependTwice(a: seq<Piece>, b: seq<Piece>, o: Outcome)
    ensures Prepend(a, Prepend(b, o)) == Prepend(a + b, o)
  {
    if o.Done? {
      assert a + (b + o.pieces) == (a + b) + o.pieces;
    }
  }

  /** Fetching goes on consistently and nothing fetched before is forgotten. */
  ghost predicate Continues(args: seq<Argument>, b: Base, c: Base) {
    Consistent(args, c) && |b.got| <= |c.got| && c.got[..|b.got|] == b.got
  }

  /** Every field shows the argument of its own fetch, and fields fetch in the order they stand in. */
  ghost predicate Traceable(pieces: seq<Piece>, low: nat, b: Base) {
    forall i | 0 <= i < |pieces| && pieces[i].Field? ::
      && low <= pieces[i].from < |b.got| && b.got[pieces[i].from].arg == pieces[i].arg
      && forall j | i < j < |pieces| && pieces[j].Field? :: pieces[i].from < pieces[j].from
  }

  lemma TracedPrepend(text: string, field: Piece, rest: seq<Piece>, low: nat, next: nat, b: Base)
    requires field.Field? && low <= field.from < next <= |b.got| && b.got[field.from].arg == field.arg
    requires Traceable(rest, next, b)
    ensures Traceable(TextPiece(text) + [field] + rest, low, b)
  {
  }

  lemma TracedText(text: string, rest: seq<Piece>, low: nat, b: Base)
    requires Traceable(rest, low, b)
    ensures Traceable(TextPiece(text) + rest, low, b)
  {
  }

  lemma AfterField(text: string, args: seq<Argument>, b: Base, field: Piece, c: Base, rest: Outcome)
    requires Continues(args, b, c)
    requires field.Field? && |b.got| <= field.from < |c.got| && c.got[field.from].arg == field.arg
    requires rest.Done? && Continues(args, c, rest.base) && Traceable(rest.pieces, |c.got|, rest.base)
    ensures Continues(args, b, rest.base) && Traceable(TextPiece(text) + [field] + rest.pieces, |b.got|, rest.base)
  {
    assert rest.base.got[..|c.got|][..|b.got|] == rest.base.got[..|b.got|];
    assert rest.base.got[field.from] == rest.base.got[..|c.got|][field.from];
    TracedPrepend(text, field, rest.pieces, |b.got|, |c.got|, rest.base);
  }

  /** The text of pieces that are all text. */
  function AllText(pieces: seq<Piece>): Option<string> {
    if pieces == [] then Some("")
    else if pieces[0].Field? then None
    else
      match AllText(pieces[1..])
      case None => None
      case Some(t) => Some(pieces[0].text + t)
  }

  lemma AllTextPiece(text: string, rest: seq<Piece>)
    requires AllText(rest).Some?
    ensures AllText(TextPiece(text) + rest) == Some(text + AllText(rest).value)
  {
    if text == "" {
      assert TextPiece(text) + rest == rest;
      assert text + AllText(rest).value == AllText(rest).value;
    } else {
      assert ([Text(text)] + rest)[1..] == rest;
    }
  }

  /** Fetching in two stretches. */
  lemma ContinuesTwice(args: seq<Argument>, b: Base, c: Base, d: Base)
    requires Continues(args, b, c) && Continues(args, c, d)
    ensures Continues(args, b, d)
  {
    assert d.got[..|c.got|][..|b.got|] == d.got[..|b.got|];
  }

  lemma OneCharOut(f: string, start: nat, s: nat, t: string)
    requires start <= s < |f| && t != "" && f[s] == t[0]
    ensures f[start..s + 1] + t[1..] == f[start..s] + t
    ensures s + 2 <= |f| ==> f[s + 2..s + 2] + t[1..] == t[1..]
  {
    assert f[start..s + 1] == f[start..s] + [t[0]];
    assert t == [t[0]] + t[1..];
  }

  // ---- the formatting loop -------------------------------------------------------------------------

  /** Reads the field whose special character stands at a position. */
  type Reader = (nat, Base) -> Traced<Piece>

  /** A position at which the outcome of a reader is wanted. */
  predicate Asked(s: nat, b: Base) {
    true
  }

  /** The same reader, to be looked into only where asked. */
  ghost predicate SameReader(read: Reader, other: Reader) {
    forall s: nat, b: Base {:trigger Asked(s, b)} :: Asked(s, b) ==> read(s, b) == other(s, b)
  }

  ghost predicate Advances(f: CString, read: Reader) {
    forall s: nat, b: Base | s < |f| && b.next >= -1 && read(s, b).Moved? ::
      s < read(s, b).pos <= |f| && read(s, b).base.next >= -1
  }

  /** Formatting from `s` on, with text from `start` on not yet written. */
  function Scan(f: CString, special: set<char>, read: Reader, start: nat, s: nat, b: Base): Outcome
    requires start <= s <= |f| && b.next >= -1 && Advances(f, read)
    decreases |f| - s
  {
    if s == |f| then Done(TextPiece(f[start..s]), b)
    else if f[s] !in special then Scan(f, special, read, start, s + 1, b)
    else if CharAt(f, s + 1) == f[s] then
      Prepend(TextPiece(f[start..s + 1]), Scan(f, special, read, s + 2, s + 2, b))
    else
      match read(s, b)
      case Stopped(fault) => Failed(fault)
      case Moved(field, p, b1) => Prepend(TextPiece(f[start..s]) + [field], Scan(f, special, read, p, p, b1))
  }

  lemma ScanTail(f: CString, special: set<char>, read: Reader, start: nat, b: Base, sofar: seq<Piece>, before: seq<Piece>)
    requires start <= |f| && b.next >= -1 && Advances(f, read)
    ensures var o := Prepend(sofar, Scan(f, special, read, start, |f|, b));
      Reached(o, None, before, before + sofar + TextPiece(f[start..]), b)
  {
    var tail := TextPiece(f[start..]);
    assert f[start..|f|] == f[start..];
    assert Scan(f, special, read, start, |f|, b) == Done(tail, b);
    assert before + sofar + tail == before + (sofar + tail);
  }

  /** The loop's turns, with `sofar` already written. */
  lemma DoubledTurn(f: CString, special: set<char>, read: Reader, start: nat, s: nat, b: Base, sofar: seq<Piece>)
    requires start <= s < |f| && b.next >= -1 && Advances(f, read) && f[s] in special && CharAt(f, s + 1) == f[s]
    ensures s + 2 <= |f|
    ensures Prepend(sofar, Scan(f, special, read, start, s, b))
         == Prepend(sofar + TextPiece(f[start..s + 1]), Scan(f, special, read, s + 2, s + 2, b))
  {
    PrependTwice(sofar, TextPiece(f[start..s + 1]), Scan(f, special, read, s + 2, s + 2, b));
  }

  lemma FieldTurn(f: CString, special: set<char>, read: Reader, start: nat, s: nat, b: Base, sofar: seq<Piece>)
    requires start <= s < |f| && b.next >= -1 && Advances(f, read) && f[s] in special && CharAt(f, s + 1) != f[s]
    ensures var r := read(s, b);
      && (r.Stopped? ==> Scan(f, special, read, start, s, b) == Failed(r.fault))
      && (r.Moved? ==>
            Prepend(sofar, Scan(f, special, read, start, s, b))
            == Prepend(sofar + TextPiece(f[start..s]) + [r.value], Scan(f, special, read, r.pos, r.pos, r.base)))
  {
    var r := read(s, b);
    if r.Moved? {
      var text := TextPiece(f[start..s]);
      PrependTwice(sofar, text + [r.value], Scan(f, special, read, r.pos, r.pos, r.base));
      assert sofar + text + [r.value] == sofar + (text + [r.value]);
    }
  }

  /** A field that has been read goes on fetching consistently, and shows what it fetched. */
  ghost predicate ReadsField(args: seq<Argument>, b: Base, r: Traced<Piece>) {
    r.Moved? ==>
      && Continues(args, b, r.base) && r.value.Field?
      && |b.got| <= r.value.from < |r.base.got| && r.base.got[r.value.from].arg == r.value.arg
  }

  ghost predicate ReadsFields(f: CString, args: seq<Argument>, read: Reader) {
    forall s: nat, b: Base | s < |f| && Consistent(args, b) :: ReadsField(args, b, read(s, b))
  }

  lemma {:induction false} ScanContinues(
    f: CString, special: set<char>, read: Reader, start: nat, s: nat, args: seq<Argument>, b: Base)
    requires start <= s <= |f| && Advances(f, read) && ReadsFields(f, args, read)
    requires Consistent(args, b) && Scan(f, special, read, start, s, b).Done?
    ensures var r := Scan(f, special, read, start, s, b);
      Continues(args, b, r.base) && Traceable(r.pieces, |b.got|, r.base)
    decreases |f| - s
  {
    if s == |f| {
    } else if f[s] !in special {
      ScanContinues(f, special, read, start, s + 1, args, b);
    } else if CharAt(f, s + 1) == f[s] {
      ScanContinues(f, special, read, s + 2, s + 2, args, b);
      var rest := Scan(f, special, read, s + 2, s + 2, b);
      TracedText(f[start..s + 1], rest.pieces, |b.got|, rest.base);
    } else {
      var r := read(s, b);
      assert ReadsField(args, b, r);
      ScanContinues(f, special, read, r.pos, r.pos, args, r.base);
      AfterField(f[start..s], args, b, r.value, r.base, Scan(f, special, read, r.pos, r.pos, r.base));
    }
  }

  // ---- doubled special characters ------------------------------------------------------------------

  function Doubled(t: string, special: set<char>): string {
    if t == "" then "" else (if t[0] in special then [t[0], t[0]] else [t[0]]) + Doubled(t[1..], special)
  }

  lemma {:induction false} DoubledIsCString(t: CString, special: set<char>)
    ensures NUL !in Doubled(t, special)
    decreases |t|
  {
    if t != "" {
      DoubledIsCString(t[1..], special);
    }
  }

  lemma {:induction false} DoubledScan(
    f: CString, special: set<char>, read: Reader, start: nat, s: nat, t: string, b: Base)
    requires start <= s <= |f| && b.next >= -1 && Advances(f, read) && f[s..] == Doubled(t, special)
    ensures var r := Scan(f, special, read, start, s, b);
      r.Done? && r.base == b && AllText(r.pieces) == Some(f[start..s] + t)
    decreases |t|
  {
    if t == "" {
      AllTextPiece(f[start..s], []);
      assert TextPiece(f[start..s]) + [] == TextPiece(f[start..s]);
    } else if t[0] in special {
      assert f[s] == f[s..][0] && f[s + 1] == f[s..][1];
      assert f[s + 2..] == f[s..][2..] == Doubled(t[1..], special);
      DoubledScan(f, special, read, s + 2, s + 2, t[1..], b);
      AllTextPiece(f[start..s + 1], Scan(f, special, read, s + 2, s + 2, b).pieces);
      OneCharOut(f, start, s, t);
    } else {
      assert f[s] == f[s..][0];
      assert f[s + 1..] == f[s..][1..] == Doubled(t[1..], special);
      DoubledScan(f, special, read, start, s + 1, t[1..], b);
      OneCharOut(f, start, s, t);
    }
  }

  // ---- short format strings ------------------------------------------------------------------------

  lemma ScanEnd(f: CString, special: set<char>, read: Reader, b: Base)
    requires b.next >= -1 && Advances(f, read)
    ensures Scan(f, special, read, |f|, |f|, b) == Done([], b)
  {
  }

  /** A format string that is one field. */
  lemma OneField(f: CString, special: set<char>, read: Reader, b: Base, field: Piece, c: Base)
    requires b.next >= -1 && c.next >= -1 && Advances(f, read) && |f| >= 2 && f[0] in special && f[1] != f[0]
    requires read(0, b) == Moved(field, |f|, c)
    ensures Scan(f, special, read, 0, 0, b) == Done([field], c)
  {
    ScanEnd(f, special, read, c);
    assert TextPiece(f[0..0]) == [] && [] + [field] + [] == [field];
  }

  /** A format string whose first field is refused. */
  lemma OneFault(f: CString, special: set<char>, read: Reader, b: Base, fault: Fault)
    requires b.next >= -1 && Advances(f, read) && |f| >= 2 && f[0] in special && f[1] != f[0]
    requires read(0, b) == Stopped(fault)
    ensures Scan(f, special, read, 0, 0, b) == Failed(fault)
  {
  }

  /** A field with one ordinary character behind it. */
  lemma FieldAndChar(f: CString, special: set<char>, read: Reader, b: Base, field: Piece, c: Base)
    requires b.next >= -1 && c.next >= -1 && Advances(f, read) && |f| >= 3 && f[0] in special && f[1] != f[0]
    requires f[|f| - 1] !in special && read(0, b) == Moved(field, |f| - 1, c)
    ensures Scan(f, special, read, 0, 0, b) == Done([field, Text([f[|f| - 1]])], c)
  {
    var n := |f| - 1;
    assert f[n..n + 1] == [f[n]];
    assert Scan(f, special, read, n, n + 1, c) == Done([Text([f[n]])], c);
    assert Scan(f, special, read, n, n, c) == Done([Text([f[n]])], c);
    assert TextPiece(f[0..0]) == [] && [] + [field] + [Text([f[n]])] == [field, Text([f[n]])];
  }
}
