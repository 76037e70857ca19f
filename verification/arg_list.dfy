/** Argument lists: up to sixteen argument types packed four bits each into one word. */
module ArgLists {

  datatype Kind =
    | KindNone | KindNamed | KindInt | KindUInt | KindLongLong | KindULongLong | KindBool | KindChar
    | KindDouble | KindLongDouble | KindCString | KindString | KindWString | KindPointer | KindCustom

  function Code(k: Kind): (c: bv64)
    ensures c < 16
  {
    match k
    case KindNone => 0
    case KindNamed => 1
    case KindInt => 2
    case KindUInt => 3
    case KindLongLong => 4
    case KindULongLong => 5
    case KindBool => 6
    case KindChar => 7
    case KindDouble => 8
    case KindLongDouble => 9
    case KindCString => 10
    case KindString => 11
    case KindWString => 12
    case KindPointer => 13
    case KindCustom => 14
  }

  datatype Arg<V> = Arg(kind: Kind, value: V)

  const MAX_PACKED_ARGS: nat := 16

  /** The first argument's type in the low four bits, the others above; what does not fit drops out. */
  function MakeType(kinds: seq<Kind>): bv64 {
    if kinds == [] then 0 else Code(kinds[0]) | (MakeType(kinds[1..]) << 4)
  }

  /** The four bits of one argument. */
  function TypeBits(types: bv64, index: bv8): bv64
    requires index < 16
  {
    var shift: bv8 := index * 4;
    (types & (0xf << shift)) >> shift
  }

  lemma LowestType(a: bv64, b: bv64)
    requires a < 16
    ensures TypeBits(a | (b << 4), 0) == a
  {
  }

  lemma HigherType(a: bv64, b: bv64, i: bv8)
    requires a < 16 && 1 <= i < 16
    ensures TypeBits(a | (b << 4), i) == TypeBits(b, i - 1)
  {
  }

  lemma NoType(i: bv8)
    requires i < 16
    ensures TypeBits(0, i) == 0
  {
  }

  /** A packed index as a machine word. */
  function Index(n: nat): (i: bv8)
    requires n < MAX_PACKED_ARGS
  {
    n as bv8
  }

  lemma IndexWord(n: nat)
    requires n < MAX_PACKED_ARGS
    ensures Index(n) < 16
    ensures n >= 1 ==> 1 <= Index(n) && Index(n - 1) == Index(n) - 1
  {
    if n < 8 {
      assert n == 0 || n == 1 || n == 2 || n == 3 || n == 4 || n == 5 || n == 6 || n == 7;
    } else {
      assert n == 8 || n == 9 || n == 10 || n == 11 || n == 12 || n == 13 || n == 14 || n == 15;
    }
  }

  /** The packed word gives back each of the first sixteen types, and zero beyond the last. */
  lemma {:induction false} PackedTypeAt(kinds: seq<Kind>, n: nat)
    requires n < MAX_PACKED_ARGS
    ensures Index(n) < 16
    ensures TypeBits(MakeType(kinds), Index(n)) == if n < |kinds| then Code(kinds[n]) else 0
    decreases |kinds|
  {
    IndexWord(n);
    if kinds == [] {
      NoType(Index(n));
    } else if n == 0 {
      LowestType(Code(kinds[0]), MakeType(kinds[1..]));
    } else {
      HigherType(Code(kinds[0]), MakeType(kinds[1..]), Index(n));
      PackedTypeAt(kinds[1..], n - 1);
    }
  }

  // ---- the list ----------------------------------------------------------------------------------

  /** Fewer than sixteen arguments are kept as bare values, more as a terminated array of arguments. */
  datatype ArgList<V> =
    | Values(types: bv64, values: seq<V>)
    | Args(types: bv64, args: seq<Arg<V>>)

  function Kinds<V>(args: seq<Arg<V>>): (ks: seq<Kind>)
    ensures |ks| == |args| && forall i | 0 <= i < |args| :: ks[i] == args[i].kind
  {
    seq(|args|, i requires 0 <= i < |args| => args[i].kind)
  }

  /** How a variadic call packs its arguments; the value of the terminator is of no interest. */
  function Pack<V>(args: seq<Arg<V>>, unset: V): ArgList<V> {
    if |args| < MAX_PACKED_ARGS then Values(MakeType(Kinds(args)), seq(|args|, i requires 0 <= i < |args| => args[i].value))
    else Args(MakeType(Kinds(args)), args + [Arg(KindNone, unset)])
  }

  /** The list was built by a call with these arguments, none of them of type NONE. */
  ghost predicate Holds<V(!new)>(list: ArgList<V>, args: seq<Arg<V>>) {
    && (forall i | 0 <= i < |args| :: args[i].kind != KindNone)
    && (exists unset: V :: list == Pack(args, unset))
  }

  function Decode(bits: bv64): Kind {
    if bits == 0 then KindNone else if bits == 1 then KindNamed else if bits == 2 then KindInt
    else if bits == 3 then KindUInt else if bits == 4 then KindLongLong else if bits == 5 then KindULongLong
    else if bits == 6 then KindBool else if bits == 7 then KindChar else if bits == 8 then KindDouble
    else if bits == 9 then KindLongDouble else if bits == 10 then KindCString else if bits == 11 then KindString
    else if bits == 12 then KindWString else if bits == 13 then KindPointer else KindCustom
  }

  lemma DecodeCode(k: Kind)
    ensures Decode(Code(k)) == k
  {
  }

  function TypeAt<V>(list: ArgList<V>, n: nat): Kind
    requires n < MAX_PACKED_ARGS
  {
    IndexWord(n);
    Decode(TypeBits(list.types, Index(n)))
  }

  lemma TypeAtIsKind<V(!new)>(list: ArgList<V>, args: seq<Arg<V>>, n: nat)
    requires Holds(list, args) && n < MAX_PACKED_ARGS
    ensures TypeAt(list, n) == if n < |args| then args[n].kind else KindNone
  {
    PackedTypeAt(Kinds(args), n);
    if n < |args| {
      DecodeCode(args[n].kind);
    }
  }

  /**
   * `ArgList::operator[]`: the argument at `index`, or one of type NONE beyond the last. No index
   * ever reads past the values or past the terminator. `unset` stands for an uninitialised value.
   */
  method At<V(!new)>(list: ArgList<V>, index: nat, unset: V, ghost args: seq<Arg<V>>) returns (arg: Arg<V>)
    requires Holds(list, args)
    ensures index < |args| ==> arg == args[index]
    ensures index >= |args| ==> arg.kind == KindNone
  {
    TypeAtIsKind(list, args, MAX_PACKED_ARGS - 1);
    var useValues := TypeAt(list, MAX_PACKED_ARGS - 1) == KindNone;
    if index < MAX_PACKED_ARGS {
      TypeAtIsKind(list, args, index);
      var kind := TypeAt(list, index);
      var value := unset;
      if kind != KindNone {
        value := if useValues then list.values[index] else list.args[index].value;
      }
      return Arg(kind, value);
    }
    if useValues {
      return Arg(KindNone, unset);
    }
    var i := MAX_PACKED_ARGS;
    while i <= index
      invariant MAX_PACKED_ARGS <= i <= index + 1 && i <= |args|
    {
      if list.args[i].kind == KindNone {
        return list.args[i];
      }
      i := i + 1;
    }
    arg := list.args[index];
  }
}
