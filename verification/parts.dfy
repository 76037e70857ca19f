/** Output as the writers receive it: text, and integers, which alone may lose their digits on the way. */
module Parts {
  import opened WriteIntegers
  import opened Buffers

  /** Text that is appended as it is, or an integer that `write_int` lays out. */
  datatype Part = AsText(text: string) | AsInt(number: int, bits: nat, signed: bool, spec: Spec)

  function PartText(p: Part, sep: string): string {
    match p
    case AsText(t) => t
    case AsInt(n, _, _, spec) => IntText(n, spec, sep)
  }

  function PartRoom(r: Space, p: Part, sep: string): Space {
    match p
    case AsText(t) => Extended(r, |t|)
    case AsInt(n, _, _, spec) => RoomAfterInt(r, n, spec, sep)
  }

  predicate PartStays(r: Space, p: Part, sep: string) {
    p.AsInt? ==> IntStays(r, p.number, p.spec, sep)
  }

  function PartsText(ps: seq<Part>, sep: string): string {
    if ps == [] then "" else PartsText(ps[..|ps| - 1], sep) + PartText(ps[|ps| - 1], sep)
  }

  function RoomAfter(r: Space, ps: seq<Part>, sep: string): Space {
    if ps == [] then r else PartRoom(RoomAfter(r, ps[..|ps| - 1], sep), ps[|ps| - 1], sep)
  }

  /** Every integer finds the place for its digits still in the buffer when they are written. */
  predicate InPlace(r: Space, ps: seq<Part>, sep: string) {
    ps == [] ||
    (InPlace(r, ps[..|ps| - 1], sep) && PartStays(RoomAfter(r, ps[..|ps| - 1], sep), ps[|ps| - 1], sep))
  }

  /** From `before` to `after` the parts have been written: whole, if they are in place. */
  ghost predicate Appends(before: string, r: Space, after: string, r': Space, ps: seq<Part>, sep: string) {
    && r' == RoomAfter(r, ps, sep)
    && (InPlace(r, ps, sep) ==> after == before + PartsText(ps, sep))
  }

  lemma NoParts(before: string, r: Space, sep: string)
    ensures Appends(before, r, before, r, [], sep)
  {
    assert before + "" == before;
  }

  lemma OnePart(r: Space, p: Part, sep: string)
    ensures PartsText([p], sep) == PartText(p, sep) && RoomAfter(r, [p], sep) == PartRoom(r, p, sep)
    ensures InPlace(r, [p], sep) <==> PartStays(r, p, sep)
  {
    assert [p][..0] == [] && "" + PartText(p, sep) == PartText(p, sep);
  }

  lemma {:induction false} PartsJoin(r: Space, ps: seq<Part>, qs: seq<Part>, sep: string)
    ensures PartsText(ps + qs, sep) == PartsText(ps, sep) + PartsText(qs, sep)
    ensures RoomAfter(r, ps + qs, sep) == RoomAfter(RoomAfter(r, ps, sep), qs, sep)
    ensures InPlace(r, ps + qs, sep) <==> InPlace(r, ps, sep) && InPlace(RoomAfter(r, ps, sep), qs, sep)
    decreases |qs|
  {
    if qs == [] {
      assert ps + qs == ps && PartsText(ps, sep) + "" == PartsText(ps, sep);
    } else {
      var init, last := qs[..|qs| - 1], qs[|qs| - 1];
      PartsJoin(r, ps, init, sep);
      assert (ps + qs)[..|ps + qs| - 1] == ps + init && (ps + qs)[|ps + qs| - 1] == last;
      TextsJoin(PartsText(ps, sep), PartsText(init, sep), PartText(last, sep));
    }
  }

  lemma TextsJoin(a: string, b: string, c: string)
    ensures (a + b) + c == a + (b + c)
  {
  }

  /** Writing goes on where it stopped. */
  lemma AppendsJoin(before: string, r: Space, middle: string, r1: Space, after: string, r2: Space,
                    ps: seq<Part>, qs: seq<Part>, sep: string)
    requires Appends(before, r, middle, r1, ps, sep) && Appends(middle, r1, after, r2, qs, sep)
    ensures Appends(before, r, after, r2, ps + qs, sep)
  {
    PartsJoin(r, ps, qs, sep);
    TextsJoin(before, PartsText(ps, sep), PartsText(qs, sep));
  }

  // ---- when everything is in place -----------------------------------------------------------------

  /** An integer left-aligned behind zeros that a precision asks for is the only one that can move. */
  predicate CanMove(p: Part) {
    p.AsInt? && p.spec.precision > 0 && p.spec.align == AlignLeft
  }

  ghost predicate NoneMoves(ps: seq<Part>) {
    forall i | 0 <= i < |ps| :: !CanMove(ps[i])
  }

  lemma {:induction false} NothingMoves(r: Space, ps: seq<Part>, sep: string)
    requires NoneMoves(ps)
    ensures InPlace(r, ps, sep)
  {
    if ps != [] {
      NothingMoves(r, ps[..|ps| - 1], sep);
    }
  }

  lemma IntFits(r: Space, n: int, spec: Spec, sep: string)
    requires r.size + |IntText(n, spec, sep)| <= r.capacity
    ensures IntStays(r, n, spec, sep)
    ensures RoomAfterInt(r, n, spec, sep) == Space(r.size + |IntText(n, spec, sep)|, r.capacity)
  {
    FrameWidth(|DigitText(Magnitude(n), spec.kind, sep)|, spec, SignPrefix(n, spec) + BasePrefix(spec));
  }

  /** With room for the whole text from the start everything is in place and nothing grows. */
  lemma {:induction false} EnoughRoomInPlace(r: Space, ps: seq<Part>, sep: string)
    requires r.size + |PartsText(ps, sep)| <= r.capacity
    ensures InPlace(r, ps, sep)
    ensures RoomAfter(r, ps, sep) == Space(r.size + |PartsText(ps, sep)|, r.capacity)
  {
    if ps != [] {
      var init, last := ps[..|ps| - 1], ps[|ps| - 1];
      EnoughRoomInPlace(r, init, sep);
      if last.AsInt? {
        IntFits(RoomAfter(r, init, sep), last.number, last.spec, sep);
      }
    }
  }

  /** And some run is not: 497 characters, then `%-6.3d` of a digit, in the buffer a writer starts with. */
  lemma SomeRunMoves(t: string, n: nat, sep: string)
    requires |t| == 497 && n < 10
    ensures !InPlace(Space(0, INLINE_BUFFER_SIZE),
                     [AsText(t), AsInt(n, 32, true, Spec(6, ' ', AlignLeft, 3, false, false, false, false, 'd'))], sep)
  {
    var part := AsInt(n, 32, true, Spec(6, ' ', AlignLeft, 3, false, false, false, false, 'd'));
    var r := Space(0, INLINE_BUFFER_SIZE);
    OnePart(r, AsText(t), sep);
    OnePart(RoomAfter(r, [AsText(t)], sep), part, sep);
    PartsJoin(r, [AsText(t)], [part], sep);
    assert [AsText(t)] + [part] == [AsText(t), part];
    OneDigit(n);
    SomeFieldMoves();
  }

  lemma OneDigit(n: nat)
    requires n < 10
    ensures |Numerals.Numeral(n, 10, false)| == 1
  {
    ShiftedDigits(n, 10, false);
  }
}
