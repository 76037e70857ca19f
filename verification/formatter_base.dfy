/** What the two formatters share: reading a C string and fetching arguments in one of two modes. */
module FormatterBases {
  import opened Options
  import Numerals
  import opened ArgLists
  import opened FormatIntegers

  /** A C string: its end is marked by a character it does not contain. */
  type CString = s: string | '\0' !in s

  const NUL := '\0'

  /** Reading may look at the terminator and no further. */
  function CharAt(f: CString, i: nat): (c: char)
    requires i <= |f|
    ensures c == NUL <==> i == |f|
  {
    if i == |f| then NUL else f[i]
  }

  datatype Fault =
    | ToAutomatic | ToManual | OutOfRange | NotFound | InvalidFormat | NumberTooBig
    | UnmatchedBrace | MissingBrace | InvalidFill | NeedsNumeric | NeedsSigned
    | NegativeWidth | WidthNotInteger | NegativePrecision | PrecisionNotInteger
    | MissingPrecision | PrecisionNotAllowed
    | UnknownType | InvalidForChar | NullString

  /** An argument, with the name it was passed under, if any. */
  datatype AnyArgument = Argument(name: Option<string>, kind: Kind, number: int, text: string)

  /** Custom and wide arguments are not modelled; a named argument has the kind of its value. */
  type Argument = a: AnyArgument |
    a.kind != KindNone && a.kind != KindNamed && a.kind != KindCustom && a.kind != KindWString
    witness Argument(None, KindInt, 0, "")

  predicate IsInteger(a: Argument) {
    a.kind in {KindInt, KindUInt, KindLongLong, KindULongLong, KindBool, KindChar}
  }

  predicate IsNumeric(a: Argument) {
    IsInteger(a) || a.kind in {KindDouble, KindLongDouble}
  }

  // ---- reading a number ----------------------------------------------------------------------------

  datatype Step<+A> = Go(value: A, pos: nat) | Fail(fault: Fault)

  predicate DigitAt(f: CString, s: nat)
    requires s <= |f|
  {
    IsDigit(CharAt(f, s))
  }

  /** The number at `s`, where a digit is known to be. */
  function NumberAt(f: CString, s: nat): (r: Step<nat>)
    requires s <= |f| && DigitAt(f, s)
    ensures r.Go? ==> s < r.pos <= |f| && !DigitAt(f, r.pos) && r.value <= INT_MAX
  {
    var run := f[s..][..DigitRun(f[s..])];
    match Verdict(run)
    case Number(v) => Go(v, s + |run|)
    case TooBig => Fail(NumberTooBig)
  }

  method ParseNumber(f: CString, s: nat) returns (r: Step<nat>)
    requires s <= |f| && DigitAt(f, s)
    ensures r == NumberAt(f, s)
  {
    var v, next := ParseNonnegativeInt(f, s);
    assert f[s..s + DigitRun(f[s..])] == f[s..][..DigitRun(f[s..])];
    match v
    case Number(n) => return Go(n, next);
    case TooBig => return Fail(NumberTooBig);
  }

  ghost predicate StartsAt(f: CString, s: nat, t: string) {
    s + |t| <= |f| && f[s..s + |t|] == t
  }

  lemma {:induction false} DigitRunIs(s: string, t: string, rest: string)
    requires s == t + rest && AllDigits(t) && (rest != "" ==> !IsDigit(rest[0]))
    ensures DigitRun(s) == |t|
    decreases |t|
  {
    if t != "" {
      assert s[1..] == t[1..] + rest;
      DigitRunIs(s[1..], t[1..], rest);
    }
  }

  /** Digits are read as their number, up to the character after them. */
  lemma NumberReads(f: CString, s: nat, t: string)
    requires t != "" && AllDigits(t) && NumeralValue(t) <= INT_MAX
    requires StartsAt(f, s, t) && !DigitAt(f, s + |t|)
    ensures s < |f| && DigitAt(f, s) && NumberAt(f, s) == Go(NumeralValue(t), s + |t|)
  {
    VerdictUpToUintMax(t);
    var rest := f[s + |t|..];
    assert f[s..] == t + rest;
    assert f[s] == t[0];
    DigitRunIs(f[s..], t, rest);
    assert f[s..][..|t|] == t;
  }

  /** A printed number is read back. */
  lemma NumberReadsBack(f: CString, s: nat, n: nat)
    requires n <= INT_MAX && StartsAt(f, s, Numerals.Decimal(n)) && !DigitAt(f, s + |Numerals.Decimal(n)|)
    ensures s < |f| && DigitAt(f, s) && NumberAt(f, s) == Go(n, s + |Numerals.Decimal(n)|)
  {
    DecimalIsDigits(n);
    NumberReads(f, s, Numerals.Decimal(n));
  }

  // ---- fetching arguments --------------------------------------------------------------------------

  /** The next argument, the one at an index, or the one with a name. */
  datatype Request = Next | Index(i: nat) | Name(name: string)

  datatype Got = Got(request: Request, arg: Argument)

  /** The next index to hand out, or -1 in manual mode; and what has been fetched so far. */
  datatype Base = Base(next: int, got: seq<Got>)

  /** A step that may have fetched arguments. */
  datatype Traced<+A> = Moved(value: A, pos: nat, base: Base) | Stopped(fault: Fault)

  datatype Fetched = Found(arg: Argument) | Denied(fault: Fault)

  function FirstNamed(args: seq<Argument>, name: string): (r: Option<nat>)
    ensures r.Some? ==> r.value < |args| && args[r.value].name == Some(name)
    ensures r.Some? ==> forall i | 0 <= i < r.value :: args[i].name != Some(name)
    ensures r.None? ==> forall i | 0 <= i < |args| :: args[i].name != Some(name)
  {
    if args == [] then None
    else if args[0].name == Some(name) then Some(0)
    else
      match FirstNamed(args[1..], name)
      case None => None
      case Some(i) => Some(i + 1)
  }

  /** The argument a request stands for once the mode allows it. */
  function Designated(args: seq<Argument>, next: int, q: Request): Fetched
    requires q == Next ==> next >= 0
  {
    match q
    case Next => if next < |args| then Found(args[next]) else Denied(OutOfRange)
    case Index(i) => if i < |args| then Found(args[i]) else Denied(OutOfRange)
    case Name(n) =>
      match FirstNamed(args, n)
      case None => Denied(NotFound)
      case Some(i) => Found(args[i])
  }

  function Fetch(args: seq<Argument>, b: Base, q: Request): (r: (Fetched, Base))
    requires b.next >= -1
    ensures r.1.next >= -1
  {
    if q == Next then
      if b.next < 0 then (Denied(ToAutomatic), b)
      else
        var a := Designated(args, b.next, q);
        (a, Base(b.next + 1, if a.Found? then b.got + [Got(q, a.arg)] else b.got))
    else if b.next > 0 then (Denied(ToManual), b)
    else
      var a := Designated(args, b.next, q);
      (a, Base(-1, if a.Found? then b.got + [Got(q, a.arg)] else b.got))
  }

  // ---- the packed arguments ------------------------------------------------------------------------

  /** The value of an argument; a named argument is a pointer to its name and the argument proper. */
  datatype Payload = Plain(number: int, text: string) | ToNamed(name: string, kind: Kind, number: int, text: string)

  const UNSET := Plain(0, "")

  function Packed(a: Argument): Arg<Payload> {
    match a.name
    case None => Arg(a.kind, Plain(a.number, a.text))
    case Some(n) => Arg(KindNamed, ToNamed(n, a.kind, a.number, a.text))
  }

  function PackedArgs(args: seq<Argument>): (ps: seq<Arg<Payload>>)
    ensures |ps| == |args| && forall i | 0 <= i < |ps| :: ps[i] == Packed(args[i])
  {
    seq(|args|, i requires 0 <= i < |args| => Packed(args[i]))
  }

  datatype Pair = Pair(name: string, arg: Argument)

  /** The named arguments, in order. */
  function NamedPairs(args: seq<Argument>): seq<Pair> {
    if args == [] then []
    else
      var last := args[|args| - 1];
      NamedPairs(args[..|args| - 1]) + if last.name.Some? then [Pair(last.name.value, last)] else []
  }

  lemma NamedPairsStep(args: seq<Argument>, i: nat)
    requires i < |args|
    ensures NamedPairs(args[..i + 1])
         == NamedPairs(args[..i]) + if args[i].name.Some? then [Pair(args[i].name.value, args[i])] else []
  {
    assert args[..i + 1][..i] == args[..i];
  }

  function FirstPair(pairs: seq<Pair>, name: string): Option<Argument> {
    if pairs == [] then None
    else if pairs[0].name == name then Some(pairs[0].arg) else FirstPair(pairs[1..], name)
  }

  lemma {:induction false} FirstPairSnoc(pairs: seq<Pair>, p: Pair, name: string)
    ensures FirstPair(pairs + [p], name)
         == if FirstPair(pairs, name).Some? then FirstPair(pairs, name)
            else if p.name == name then Some(p.arg) else None
  {
    if pairs == [] {
      assert pairs + [p] == [p] && [p][1..] == [];
    } else {
      FirstPairSnoc(pairs[1..], p, name);
      assert (pairs + [p])[1..] == pairs[1..] + [p];
    }
  }

  lemma {:induction false} FirstNamedSnoc(args: seq<Argument>, a: Argument, name: string)
    ensures FirstNamed(args + [a], name)
         == if FirstNamed(args, name).Some? then FirstNamed(args, name)
            else if a.name == Some(name) then Some(|args|) else None
  {
    if args == [] {
      assert args + [a] == [a] && [a][1..] == [];
    } else {
      FirstNamedSnoc(args[1..], a, name);
      assert (args + [a])[1..] == args[1..] + [a];
    }
  }

  /** Looking a name up among the pairs finds the first argument of that name. */
  lemma {:induction false} PairsFindFirstNamed(args: seq<Argument>, name: string)
    ensures FirstPair(NamedPairs(args), name)
         == match FirstNamed(args, name) case None => None case Some(i) => Some(args[i])
  {
    if args != [] {
      var init, last := args[..|args| - 1], args[|args| - 1];
      PairsFindFirstNamed(init, name);
      assert args == init + [last];
      FirstNamedSnoc(init, last, name);
      if last.name.Some? {
        FirstPairSnoc(NamedPairs(init), Pair(last.name.value, last), name);
      } else {
        assert NamedPairs(init) + [] == NamedPairs(init);
      }
    }
  }

  /** What a packed argument stands for, once a named one has been followed. */
  method Unpacked(arg: Arg<Payload>, ghost a: Argument) returns (r: Argument)
    requires arg == Packed(a)
    ensures r == a
  {
    match arg.value
    case Plain(number, text) => return Argument(None, arg.kind, number, text);
    case ToNamed(name, kind, number, text) => return Argument(Some(name), kind, number, text);
  }

  /** A place where the packed list is looked into. */
  predicate Looked(i: nat) {
    true
  }

  class FormatterBase {
    const list: ArgList<Payload>
    ghost const args: seq<Argument>
    var nextArgIndex: int
    /** The named arguments, once a name has been looked up. */
    var pairs: seq<Pair>
    /** The record of what has been fetched. */
    var got: seq<Got>

    /** The list holds the arguments; to be used only where it is looked into. */
    ghost predicate Packs() {
      forall i: nat {:trigger Looked(i)} :: Looked(i) ==> Holds(list, PackedArgs(args))
    }

    ghost predicate Valid()
      reads this
    {
      Packs() && nextArgIndex >= -1 && (pairs == [] || pairs == NamedPairs(args))
    }

    function State(): Base
      reads this
    {
      Base(nextArgIndex, got)
    }

    constructor (args: seq<Argument>)
      ensures Valid() && this.args == args && State() == Base(0, [])
    {
      this.args := args;
      list := Pack(PackedArgs(args), UNSET);
      nextArgIndex := 0;
      pairs := [];
      got := [];
    }

    /** The argument the packed list holds at `i`, a named one followed to its value. */
    method DoGetArg(i: nat) returns (r: Fetched)
      requires Valid()
      ensures r == if i < |args| then Found(args[i]) else Denied(OutOfRange)
    {
      assert Looked(i);
      var arg := At(list, i, UNSET, PackedArgs(args));
      if arg.kind == KindNone {
        return Denied(OutOfRange);
      }
      var a := Unpacked(arg, args[i]);
      return Found(a);
    }

    method NextArg() returns (r: Fetched)
      requires Valid()
      modifies this
      ensures Valid() && (r, State()) == Fetch(args, old(State()), Next)
    {
      if nextArgIndex >= 0 {
        nextArgIndex := nextArgIndex + 1;
        r := DoGetArg(nextArgIndex - 1);
        if r.Found? {
          got := got + [Got(Next, r.arg)];
        }
        return;
      }
      return Denied(ToAutomatic);
    }

    method CheckNoAutoIndex() returns (ok: bool)
      modifies this`nextArgIndex
      ensures ok <==> old(nextArgIndex) <= 0
      ensures nextArgIndex == if ok then -1 else old(nextArgIndex)
    {
      if nextArgIndex > 0 {
        return false;
      }
      nextArgIndex := -1;
      return true;
    }

    method GetArg(i: nat) returns (r: Fetched)
      requires Valid()
      modifies this
      ensures Valid() && (r, State()) == Fetch(args, old(State()), Index(i))
    {
      var ok := CheckNoAutoIndex();
      if !ok {
        return Denied(ToManual);
      }
      r := DoGetArg(i);
      if r.Found? {
        got := got + [Got(Index(i), r.arg)];
      }
    }

    /** Collects the named arguments, from bare values or from the terminated array. */
    method InitMap()
      requires Valid()
      modifies this`pairs
      ensures Valid() && pairs == NamedPairs(args)
    {
      if pairs != [] {
        return;
      }
      assert Looked(MAX_PACKED_ARGS - 1);
      TypeAtIsKind(list, PackedArgs(args), MAX_PACKED_ARGS - 1);
      if TypeAt(list, MAX_PACKED_ARGS - 1) == KindNone {
        CollectValues();
      } else {
        CollectArgs();
      }
    }

    /** Fewer than sixteen arguments: the types end with NONE. */
    method CollectValues()
      requires Valid() && pairs == [] && |args| < MAX_PACKED_ARGS
      modifies this`pairs
      ensures pairs == NamedPairs(args)
    {
      assert Looked(0);
      var i := 0;
      while true
        invariant i <= |args| && pairs == NamedPairs(args[..i])
        decreases |args| - i
      {
        TypeAtIsKind(list, PackedArgs(args), i);
        var kind := TypeAt(list, i);
        if kind == KindNone {
          assert args[..i] == args;
          return;
        }
        NamedPairsStep(args, i);
        if kind == KindNamed {
          Push(Arg(kind, list.values[i]), args[i]);
        }
        i := i + 1;
      }
    }

    /** Sixteen arguments and more: sixteen packed types, then the types in the array itself. */
    method CollectArgs()
      requires Valid() && pairs == [] && |args| >= MAX_PACKED_ARGS
      modifies this`pairs
      ensures pairs == NamedPairs(args)
    {
      assert Looked(0);
      var i := 0;
      while i != MAX_PACKED_ARGS
        invariant i <= MAX_PACKED_ARGS && pairs == NamedPairs(args[..i])
      {
        TypeAtIsKind(list, PackedArgs(args), i);
        NamedPairsStep(args, i);
        if TypeAt(list, i) == KindNamed {
          Push(list.args[i], args[i]);
        }
        i := i + 1;
      }
      while true
        invariant MAX_PACKED_ARGS <= i <= |args| && pairs == NamedPairs(args[..i])
        decreases |args| - i
      {
        if list.args[i].kind == KindNone {
          assert args[..i] == args;
          return;
        }
        NamedPairsStep(args, i);
        if list.args[i].kind == KindNamed {
          Push(list.args[i], args[i]);
        }
        i := i + 1;
      }
    }

    method Push(arg: Arg<Payload>, ghost a: Argument)
      requires arg == Packed(a) && a.name.Some?
      modifies this`pairs
      ensures pairs == old(pairs) + [Pair(a.name.value, a)]
    {
      var proper := Unpacked(arg, a);
      pairs := pairs + [Pair(arg.value.name, proper)];
    }

    method Find(name: string) returns (r: Option<Argument>)
      ensures r == FirstPair(pairs, name)
    {
      for i := 0 to |pairs|
        invariant FirstPair(pairs, name) == FirstPair(pairs[i..], name)
      {
        if pairs[i].name == name {
          return Some(pairs[i].arg);
        }
        assert pairs[i..][1..] == pairs[i + 1..];
      }
      return None;
    }

    method GetNamed(name: string) returns (r: Fetched)
      requires Valid()
      modifies this
      ensures Valid() && (r, State()) == Fetch(args, old(State()), Name(name))
    {
      var ok := CheckNoAutoIndex();
      if !ok {
        return Denied(ToManual);
      }
      InitMap();
      var found := Find(name);
      PairsFindFirstNamed(args, name);
      match found
      case None =>
        return Denied(NotFound);
      case Some(a) =>
        got := got + [Got(Name(name), a)];
        return Found(a);
    }
  }

  /**
   * All fetches so far were automatic and handed out the arguments from the first on, or all were
   * manual and each got the argument it designated.
   */
  ghost predicate Consistent(args: seq<Argument>, b: Base) {
    && b.next >= -1
    && (b.next >= 0 ==>
          && |b.got| == b.next <= |args|
          && forall k | 0 <= k < |b.got| :: b.got[k] == Got(Next, args[k]))
    && (b.next == -1 ==>
          forall k | 0 <= k < |b.got| ::
            !b.got[k].request.Next? && Designated(args, 0, b.got[k].request) == Found(b.got[k].arg))
  }

  lemma FetchKeepsConsistent(args: seq<Argument>, b: Base, q: Request)
    requires Consistent(args, b) && Fetch(args, b, q).0.Found?
    ensures Consistent(args, Fetch(args, b, q).1)
  {
  }

  /** What a fetch adds to the record. */
  lemma FetchRecords(args: seq<Argument>, b: Base, q: Request)
    requires b.next >= -1 && Fetch(args, b, q).0.Found?
    ensures Fetch(args, b, q).1.got == b.got + [Got(q, Fetch(args, b, q).0.arg)]
  {
  }

  function FetchAll(args: seq<Argument>, b: Base, qs: seq<Request>): (r: Option<Base>)
    requires b.next >= -1
    ensures r.Some? ==> r.value.next >= -1
    decreases |qs|
  {
    if qs == [] then Some(b)
    else
      var (a, b1) := Fetch(args, b, qs[0]);
      if a.Denied? then None else FetchAll(args, b1, qs[1..])
  }

  /** A request is denied only for mixing the modes or because there is no such argument. */
  ghost predicate Allowed(args: seq<Argument>, qs: seq<Request>) {
    || (|qs| <= |args| && forall k | 0 <= k < |qs| :: qs[k] == Next)
    || (forall k | 0 <= k < |qs| :: qs[k] != Next && Designated(args, 0, qs[k]).Found?)
  }

  lemma {:induction false} AutomaticFetches(args: seq<Argument>, b: Base, qs: seq<Request>)
    requires b.next > 0
    ensures FetchAll(args, b, qs).Some? <==>
      (forall k | 0 <= k < |qs| :: qs[k] == Next) && (qs == [] || b.next + |qs| <= |args|)
    decreases |qs|
  {
    if qs != [] {
      var (a, b1) := Fetch(args, b, qs[0]);
      if a.Found? {
        AutomaticFetches(args, b1, qs[1..]);
        assert qs == [qs[0]] + qs[1..];
      }
    }
  }

  lemma {:induction false} ManualFetches(args: seq<Argument>, b: Base, qs: seq<Request>)
    requires b.next == -1
    ensures FetchAll(args, b, qs).Some? <==>
      forall k | 0 <= k < |qs| :: qs[k] != Next && Designated(args, 0, qs[k]).Found?
    decreases |qs|
  {
    if qs != [] {
      var (a, b1) := Fetch(args, b, qs[0]);
      if a.Found? {
        ManualFetches(args, b1, qs[1..]);
        assert qs == [qs[0]] + qs[1..];
      }
    }
  }

  /** A run of requests is served exactly when it keeps to one mode and stays within the arguments. */
  lemma ServedIff(args: seq<Argument>, qs: seq<Request>)
    ensures FetchAll(args, Base(0, []), qs).Some? <==> Allowed(args, qs)
  {
    if qs != [] {
      var (a, b1) := Fetch(args, Base(0, []), qs[0]);
      if a.Found? {
        if qs[0] == Next {
          AutomaticFetches(args, b1, qs[1..]);
        } else {
          ManualFetches(args, b1, qs[1..]);
        }
        assert qs == [qs[0]] + qs[1..];
      }
    }
  }

  /** No run of fetches mixes automatic and manual indexing. */
  lemma NoMixing(args: seq<Argument>, b: Base, i: nat, j: nat)
    requires Consistent(args, b) && i < |b.got| && j < |b.got|
    ensures b.got[i].request.Next? <==> b.got[j].request.Next?
  {
  }
}
