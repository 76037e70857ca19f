/** Decimal digits printed backwards, two at a time, with an optional thousands separator. */
module DecimalPrinter {
  import opened Numerals

  // ---- the two-digit table -------------------------------------------------------------------

  /** `00 01 ... 09` for one tens digit. */
  function TensRow(t: char): string {
    [t, '0', t, '1', t, '2', t, '3', t, '4', t, '5', t, '6', t, '7', t, '8', t, '9']
  }

  function TensRows(n: nat): (s: string)
    requires n <= 10
    ensures |s| == 20 * n
  {
    if n == 0 then "" else TensRows(n - 1) + TensRow('0' + (n - 1) as char)
  }

  /** The 200 characters `00010203...9899`. */
  const DIGITS: string := TensRows(10)

  lemma {:induction false} TensRowsAt(n: nat, k: nat)
    requires n <= 10 && k < 10 * n
    ensures TensRows(n)[2 * k] == DigitChar(k / 10, false)
    ensures TensRows(n)[2 * k + 1] == DigitChar(k % 10, false)
  {
    if k < 10 * (n - 1) {
      TensRowsAt(n - 1, k);
    } else {
      var u := k - 10 * (n - 1);
      assert k / 10 == n - 1 && k % 10 == u;
      var row := TensRow('0' + (n - 1) as char);
      assert TensRows(n)[2 * k] == row[2 * u] && TensRows(n)[2 * k + 1] == row[2 * u + 1];
      RowAt('0' + (n - 1) as char, u);
    }
  }

  lemma RowAt(t: char, u: nat)
    requires u < 10
    ensures TensRow(t)[2 * u] == t && TensRow(t)[2 * u + 1] == '0' + u as char
  {
    if u < 5 {
      assert u == 0 || u == 1 || u == 2 || u == 3 || u == 4;
    } else {
      assert u == 5 || u == 6 || u == 7 || u == 8 || u == 9;
    }
  }

  // ---- what the loop computes ----------------------------------------------------------------

  /** The separator goes in front of every third digit, counted from the right. */
  function Separator(digitIndex: nat, sep: string): string {
    if digitIndex % 3 == 0 then sep else ""
  }

  /** Digits of `value` put in front of `acc`, which already holds `index` digits. */
  function Render(value: nat, index: nat, acc: string, sep: string): (s: string)
    ensures |s| >= |acc| + 1
  {
    if value < 10 then [DigitChar(value, false)] + acc
    else Render(value / 10, index + 1, Separator(index + 1, sep) + [DigitChar(value % 10, false)] + acc, sep)
  }

  lemma TwoDigits(value: nat)
    ensures value % 100 / 10 == value / 10 % 10 && value % 100 % 10 == value % 10
    ensures value / 10 / 10 == value / 100
  {
    var h, m := value / 100, value % 100;
    assert value == 10 * (10 * h + m / 10) + m % 10;
    assert value / 10 == 10 * h + m / 10 && value % 10 == m % 10;
  }

  /** One digit and the separator functor behind it. */
  function Prepend(index: nat, digit: char, acc: string, sep: string): string {
    Separator(index + 1, sep) + [digit] + acc
  }

  /** Two digits of the rendering at once. */
  lemma RenderTwo(value: nat, index: nat, acc: string, sep: string)
    requires value >= 100
    ensures |DIGITS| == 200 && value % 100 < 100
    ensures var k := value % 100;
      var two := Prepend(index + 1, DIGITS[2 * k], Prepend(index, DIGITS[2 * k + 1], acc, sep), sep);
      Render(value, index, acc, sep) == Render(value / 100, index + 2, two, sep)
  {
    var k := value % 100;
    TensRowsAt(10, k);
    TwoDigits(value);
    var one := Prepend(index, DIGITS[2 * k + 1], acc, sep);
    assert Render(value, index, acc, sep) == Render(value / 10, index + 1, one, sep);
    assert Render(value / 10, index + 1, one, sep)
      == Render(value / 10 / 10, index + 2, Prepend(index + 1, DIGITS[2 * k], one, sep), sep);
  }

  lemma RenderLast(value: nat, index: nat, acc: string, sep: string)
    requires value < 100
    ensures |DIGITS| == 200
    ensures Render(value, index, acc, sep)
      == if value < 10 then ['0' + value as char] + acc
         else [DIGITS[2 * value]] + Prepend(index, DIGITS[2 * value + 1], acc, sep)
  {
    TensRowsAt(10, value);
  }

  /**
   * Writes `value` into `buffer` so that it ends just before `end`. The separator functor's digit
   * counter is `index`; an empty separator is the functor that adds none.
   */
  method FormatDecimal(buffer: array<char>, end: nat, value: nat, sep: string) returns (start: nat)
    requires end <= buffer.Length && |Render(value, 0, "", sep)| <= end
    modifies buffer
    ensures start == end - |Render(value, 0, "", sep)|
    ensures buffer[start..end] == Render(value, 0, "", sep)
    ensures forall i | 0 <= i < start || end <= i < buffer.Length :: buffer[i] == old(buffer[i])
  {
    var n := value;
    var index: nat := 0;
    start := end;
    ghost var acc := "";
    while n >= 100
      invariant start == end - |acc| && buffer[start..end] == acc
      invariant Render(n, index, acc, sep) == Render(value, 0, "", sep)
      invariant forall i | 0 <= i < start || end <= i < buffer.Length :: buffer[i] == old(buffer[i])
      decreases n
    {
      RenderTwo(n, index, acc, sep);
      start, index, acc := PutTwo(buffer, start, end, index, n % 100, sep, acc);
      n := n / 100;
    }
    start := PutLast(buffer, start, end, index, n, sep, acc);
  }

  /** The body of the loop: the two low digits, each followed by the functor. */
  method PutTwo(buffer: array<char>, pos: nat, end: nat, index: nat, k: nat, sep: string, ghost acc: string)
    returns (pos': nat, index': nat, ghost acc': string)
    requires end <= buffer.Length && pos == end - |acc| && buffer[pos..end] == acc
    requires k < 100 && |DIGITS| == 200
    requires pos >= 2 + |Separator(index + 1, sep)| + |Separator(index + 2, sep)|
    modifies buffer
    ensures acc' == Prepend(index + 1, DIGITS[2 * k], Prepend(index, DIGITS[2 * k + 1], acc, sep), sep)
    ensures index' == index + 2 && pos' == end - |acc'| && buffer[pos'..end] == acc'
    ensures forall i | 0 <= i < pos' || end <= i < buffer.Length :: buffer[i] == old(buffer[i])
  {
    ghost var one := Prepend(index, DIGITS[2 * k + 1], acc, sep);
    acc' := Prepend(index + 1, DIGITS[2 * k], one, sep);
    pos', index' := Put(buffer, pos, end, index, DIGITS[2 * k + 1], sep, acc);
    pos', index' := Put(buffer, pos', end, index', DIGITS[2 * k], sep, one);
  }

  /** What is left after the loop: one digit, or two without a separator in front. */
  method PutLast(buffer: array<char>, pos: nat, end: nat, index: nat, n: nat, sep: string, ghost acc: string)
    returns (pos': nat)
    requires end <= buffer.Length && pos == end - |acc| && buffer[pos..end] == acc
    requires n < 100 && |Render(n, index, acc, sep)| <= end
    modifies buffer
    ensures pos' == end - |Render(n, index, acc, sep)| && buffer[pos'..end] == Render(n, index, acc, sep)
    ensures forall i | 0 <= i < pos' || end <= i < buffer.Length :: buffer[i] == old(buffer[i])
  {
    RenderLast(n, index, acc, sep);
    if n < 10 {
      pos' := pos - 1;
      buffer[pos'] := '0' + n as char;
    } else {
      ghost var one := Prepend(index, DIGITS[n * 2 + 1], acc, sep);
      var index';
      pos', index' := Put(buffer, pos, end, index, DIGITS[n * 2 + 1], sep, acc);
      pos' := pos' - 1;
      buffer[pos'] := DIGITS[n * 2];
      assert buffer[pos'..end] == [DIGITS[n * 2]] + one;
    }
  }

  /** One digit, then the separator functor. */
  method Put(buffer: array<char>, pos: nat, end: nat, index: nat, digit: char, sep: string, ghost acc: string)
    returns (pos': nat, index': nat)
    requires pos <= end <= buffer.Length && buffer[pos..end] == acc
    requires pos >= 1 + |Separator(index + 1, sep)|
    modifies buffer
    ensures index' == index + 1
    ensures pos' == end - |Prepend(index, digit, acc, sep)|
    ensures buffer[pos'..end] == Prepend(index, digit, acc, sep)
    ensures forall i | 0 <= i < pos' || end <= i < buffer.Length :: buffer[i] == old(buffer[i])
  {
    pos' := pos - 1;
    buffer[pos'] := digit;
    index' := index + 1;
    if index' % 3 != 0 {
      return;
    }
    pos' := pos' - |sep|;
    forall i | 0 <= i < |sep| {
      buffer[pos' + i] := sep[i];
    }
    assert buffer[pos'..end] == sep + [digit] + acc;
  }

  // ---- what the rendering means ----------------------------------------------------------------

  /** A numeral cut into threes from the right; only the first group may be shorter. */
  function Groups(s: string): (gs: seq<string>)
    ensures |gs| >= 1
  {
    if |s| <= 3 then [s] else Groups(s[..|s| - 3]) + [s[|s| - 3..]]
  }

  function Join(gs: seq<string>, sep: string): string
    requires |gs| >= 1
  {
    if |gs| == 1 then gs[0] else Join(gs[..|gs| - 1], sep) + sep + gs[|gs| - 1]
  }

  function Concat(gs: seq<string>): string {
    if gs == [] then "" else Concat(gs[..|gs| - 1]) + gs[|gs| - 1]
  }

  /** Groups lose nothing, all but the first have exactly three digits, and the first is not empty. */
  lemma {:induction false} GroupsShape(s: string)
    requires |s| >= 1
    ensures Concat(Groups(s)) == s
    ensures |Groups(s)| == (|s| - 1) / 3 + 1
    ensures 1 <= |Groups(s)[0]| <= 3
    ensures forall i | 1 <= i < |Groups(s)| :: |Groups(s)[i]| == 3
  {
    if |s| > 3 {
      GroupsShape(s[..|s| - 3]);
      assert Groups(s)[..|Groups(s)| - 1] == Groups(s[..|s| - 3]);
    } else {
      assert [s][..0] == [] && Concat([]) == "";
      assert "" + s == s;
    }
  }

  lemma {:induction false} JoinLength(gs: seq<string>, sep: string)
    requires |gs| >= 1
    ensures |Join(gs, sep)| == |Concat(gs)| + |sep| * (|gs| - 1)
  {
    if |gs| > 1 {
      JoinLength(gs[..|gs| - 1], sep);
      assert |sep| * (|gs| - 1) == |sep| * (|gs| - 2) + |sep|;
    } else {
      assert gs[..0] == [] && "" + gs[0] == gs[0];
    }
  }

  /** The last three digits of a number of at least four. */
  lemma LastThree(n: nat)
    requires n >= 1000
    ensures Decimal(n) == Decimal(n / 1000)
      + [DigitChar(n / 100 % 10, false), DigitChar(n / 10 % 10, false), DigitChar(n % 10, false)]
  {
    NumeralStep(n, 10, false);
    NumeralStep(n / 10, 10, false);
    NumeralStep(n / 10 / 10, 10, false);
    assert n / 10 / 10 == n / 100 && n / 10 / 10 / 10 == n / 1000;
  }

  lemma RenderThree(n: nat, index: nat, acc: string, sep: string)
    requires n >= 1000 && index % 3 == 0
    ensures Render(n, index, acc, sep) == Render(n / 1000, index + 3,
      sep + [DigitChar(n / 100 % 10, false), DigitChar(n / 10 % 10, false), DigitChar(n % 10, false)] + acc, sep)
  {
    var a := [DigitChar(n % 10, false)] + acc;
    var b := [DigitChar(n / 10 % 10, false)] + a;
    var c := sep + [DigitChar(n / 100 % 10, false)] + b;
    assert Separator(index + 1, sep) + [DigitChar(n % 10, false)] + acc == a;
    assert Render(n, index, acc, sep) == Render(n / 10, index + 1, a, sep);
    assert Separator(index + 2, sep) + [DigitChar(n / 10 % 10, false)] + a == b;
    assert n / 10 / 10 == n / 100 && n / 100 / 10 == n / 1000;
    assert Render(n / 10, index + 1, a, sep) == Render(n / 100, index + 2, b, sep);
    assert Render(n / 100, index + 2, b, sep) == Render(n / 1000, index + 3, c, sep);
    assert c == sep + [DigitChar(n / 100 % 10, false), DigitChar(n / 10 % 10, false), DigitChar(n % 10, false)] + acc;
  }

  lemma NextDigit(n: nat, index: nat, acc: string, sep: string)
    requires n >= 10 && (index + 1) % 3 != 0
    ensures Render(n, index, acc, sep) == Render(n / 10, index + 1, [DigitChar(n % 10, false)] + acc, sep)
  {
    assert Separator(index + 1, sep) + [DigitChar(n % 10, false)] + acc == [DigitChar(n % 10, false)] + acc;
  }

  lemma DigitInFront(n: nat, acc: string)
    requires n >= 10
    ensures Decimal(n / 10) + ([DigitChar(n % 10, false)] + acc) == Decimal(n) + acc
    ensures |Decimal(n)| == |Decimal(n / 10)| + 1
  {
    NumeralStep(n, 10, false);
  }

  /** How many digits may follow before a separator is due, as a bound on the number. */
  predicate FitsGroup(n: nat, index: nat) {
    (index % 3 == 0 ==> n < 1000) && (index % 3 == 1 ==> n < 100) && (index % 3 == 2 ==> n < 10)
  }

  lemma NextInGroup(n: nat, index: nat)
    requires FitsGroup(n, index) && n >= 10
    ensures FitsGroup(n / 10, index + 1) && (index + 1) % 3 == index % 3 + 1 && n / 10 < n
  {
  }

  /** While no separator is due, the rendering grows like the numeral. */
  lemma {:induction false} RenderNoSeparator(n: nat, index: nat, acc: string, sep: string)
    requires FitsGroup(n, index)
    ensures Render(n, index, acc, sep) == Decimal(n) + acc && |Decimal(n)| <= 3 - index % 3
    decreases n
  {
    if n >= 10 {
      NextInGroup(n, index);
      NextDigit(n, index, acc, sep);
      RenderNoSeparator(n / 10, index + 1, [DigitChar(n % 10, false)] + acc, sep);
      DigitInFront(n, acc);
    } else {
      NumeralStep(n, 10, false);
    }
  }

  function LastGroup(n: nat): string {
    [DigitChar(n / 100 % 10, false), DigitChar(n / 10 % 10, false), DigitChar(n % 10, false)]
  }

  lemma JoinLastGroup(n: nat, sep: string)
    requires n >= 1000
    ensures Join(Groups(Decimal(n)), sep) == Join(Groups(Decimal(n / 1000)), sep) + sep + LastGroup(n)
  {
    LastThree(n);
    JoinAppended(Decimal(n), Decimal(n / 1000), LastGroup(n), sep);
  }

  lemma JoinAppended(s: string, front: string, last: string, sep: string)
    requires s == front + last && |last| == 3 && |front| >= 1
    ensures Join(Groups(s), sep) == Join(Groups(front), sep) + sep + last
  {
    assert s[..|s| - 3] == front && s[|s| - 3..] == last;
    assert (Groups(front) + [last])[..|Groups(front)|] == Groups(front);
  }

  lemma {:induction false} RenderIsJoin(n: nat, index: nat, acc: string, sep: string)
    requires index % 3 == 0
    ensures Render(n, index, acc, sep) == Join(Groups(Decimal(n)), sep) + acc
    decreases n
  {
    if n < 1000 {
      RenderNoSeparator(n, index, acc, sep);
    } else {
      RenderThree(n, index, acc, sep);
      RenderIsJoin(n / 1000, index + 3, sep + LastGroup(n) + acc, sep);
      JoinLastGroup(n, sep);
      var j := Join(Groups(Decimal(n / 1000)), sep);
      assert j + (sep + LastGroup(n) + acc) == (j + sep + LastGroup(n)) + acc;
    }
  }

  /**
   * What `format_decimal` writes: the canonical decimal of the value, cut into threes from the right
   * and joined by the separator, `d + |sep| * ((d - 1) / 3)` characters for `d` digits.
   */
  lemma RenderMeaning(n: nat, sep: string)
    ensures Render(n, 0, "", sep) == Join(Groups(Decimal(n)), sep)
    ensures Concat(Groups(Decimal(n))) == Decimal(n)
    ensures |Render(n, 0, "", sep)| == |Decimal(n)| + |sep| * ((|Decimal(n)| - 1) / 3)
    ensures 1 <= |Groups(Decimal(n))[0]| <= 3
    ensures forall i | 1 <= i < |Groups(Decimal(n))| :: |Groups(Decimal(n))[i]| == 3
  {
    RenderIsJoin(n, 0, "", sep);
    assert Join(Groups(Decimal(n)), sep) + "" == Join(Groups(Decimal(n)), sep);
    GroupsShape(Decimal(n));
    JoinLength(Groups(Decimal(n)), sep);
  }

  lemma {:induction false} JoinWithoutSeparator(gs: seq<string>)
    requires |gs| >= 1
    ensures Join(gs, "") == Concat(gs)
  {
    if |gs| > 1 {
      JoinWithoutSeparator(gs[..|gs| - 1]);
    } else {
      assert gs[..0] == [] && "" + gs[0] == gs[0];
    }
  }

  /** With no separator the rendering is the plain decimal. */
  lemma RenderPlain(n: nat)
    ensures Render(n, 0, "", "") == Decimal(n)
  {
    RenderMeaning(n, "");
    JoinWithoutSeparator(Groups(Decimal(n)));
  }
}
