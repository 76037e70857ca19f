/** The growing output buffer, and what all its growing costs together. */
module Buffers {

  /** Half as much again, counted up in pairs. */
  function HalfAgain(n: nat): (h: nat)
    ensures h >= n
  {
    if n < 2 then n else 3 + HalfAgain(n - 2)
  }

  lemma {:induction false} HalfAgainIs(n: nat)
    ensures HalfAgain(n) == n + n / 2
  {
    if n >= 2 {
      HalfAgainIs(n - 2);
    }
  }

  /** How big a grown buffer is: half as much again, or the request if that is more. */
  function GrownCapacity(capacity: nat, request: nat): (c: nat)
    ensures c >= request && c >= capacity
  {
    if request > HalfAgain(capacity) then request else HalfAgain(capacity)
  }

  /** The capacity after making sure `request` elements fit. */
  function CapacityFor(capacity: nat, request: nat): (c: nat)
    ensures c >= request && c >= capacity
  {
    if request > capacity then GrownCapacity(capacity, request) else capacity
  }

  /** How much of a buffer is in use, and how much there is. */
  datatype Space = Space(size: nat, capacity: nat)

  /** After appending `n` elements at once. */
  function Extended(r: Space, n: nat): Space {
    Space(r.size + n, CapacityFor(r.capacity, r.size + n))
  }

  /** What a buffer has been through: sizes now, elements moved by all grows, largest request so far. */
  datatype Account = Account(size: nat, capacity: nat, copied: nat, largest: nat)

  /** One operation: it asks room for `request` elements and leaves `size` of them in use. */
  datatype Request = Request(request: nat, size: nat)

  function Charge(a: Account, r: Request): Account {
    Account(
      r.size,
      CapacityFor(a.capacity, r.request),
      a.copied + if r.request > a.capacity then a.size else 0,
      if r.request > a.largest then r.request else a.largest)
  }

  predicate Fits(a: Account) {
    a.size <= a.capacity
  }

  /** An operation leaves no more in use than there is room for. */
  predicate Sound(a: Account, r: Request) {
    r.size <= CapacityFor(a.capacity, r.request)
  }

  function Run(a: Account, rs: seq<Request>): Account {
    if rs == [] then a else Charge(Run(a, rs[..|rs| - 1]), rs[|rs| - 1])
  }

  ghost predicate SoundRun(a: Account, rs: seq<Request>) {
    rs == [] || (SoundRun(a, rs[..|rs| - 1]) && Sound(Run(a, rs[..|rs| - 1]), rs[|rs| - 1]))
  }

  lemma GrowPays(capacity: nat, request: nat)
    requires request > capacity
    ensures capacity <= 3 * (GrownCapacity(capacity, request) - capacity)
    ensures 2 * GrownCapacity(capacity, request) <= 3 * request
  {
    HalfAgainIs(capacity);
  }

  /**
   * Over any run of operations from a fresh buffer, all grows together copy at most three times what
   * the capacity has gained, and the capacity stays within the initial one or 1.5 times the largest request.
   */
  lemma {:induction false} CopyingIsLinear(initial: nat, rs: seq<Request>)
    requires SoundRun(Account(0, initial, 0, 0), rs)
    ensures var a := Run(Account(0, initial, 0, 0), rs);
      && Fits(a) && a.capacity >= initial
      && a.copied <= 3 * (a.capacity - initial)
      && (a.capacity == initial || 2 * a.capacity <= 3 * a.largest)
  {
    if rs != [] {
      CopyingIsLinear(initial, rs[..|rs| - 1]);
      var a, r := Run(Account(0, initial, 0, 0), rs[..|rs| - 1]), rs[|rs| - 1];
      if r.request > a.capacity {
        GrowPays(a.capacity, r.request);
      }
    }
  }

  // ---- operations ----------------------------------------------------------------------------------

  datatype Operation = DoReserve(n: nat) | DoResize(n: nat) | DoPush(c: char) | DoAppend(text: string) | DoClear

  /** What an operation does to the contents; new elements of a resize are whatever the storage holds. */
  ghost predicate Effect(before: string, op: Operation, after: string) {
    match op
    case DoReserve(_) => after == before
    case DoResize(n) => |after| == n && forall i | 0 <= i < n && i < |before| :: after[i] == before[i]
    case DoPush(c) => after == before + [c]
    case DoAppend(t) => after == before + t
    case DoClear => after == ""
  }

  /** What an operation asks of the capacity, and what it leaves in use. */
  function RequestOf(size: nat, op: Operation): Request {
    match op
    case DoReserve(n) => Request(n, size)
    case DoResize(n) => Request(n, n)
    case DoPush(_) => Request(size + 1, size + 1)
    case DoAppend(t) => Request(size + |t|, size + |t|)
    case DoClear => Request(0, 0)
  }

  function Requests(a: Account, ops: seq<Operation>): seq<Request> {
    if ops == [] then []
    else
      var rs := Requests(a, ops[..|ops| - 1]);
      rs + [RequestOf(Run(a, rs).size, ops[|ops| - 1])]
  }

  lemma RequestsStep(a: Account, ops: seq<Operation>, i: nat)
    requires i < |ops|
    ensures var rs := Requests(a, ops[..i]); var r := RequestOf(Run(a, rs).size, ops[i]);
      Requests(a, ops[..i + 1]) == rs + [r] && Run(a, rs + [r]) == Charge(Run(a, rs), r)
  {
    var rs := Requests(a, ops[..i]);
    var r := RequestOf(Run(a, rs).size, ops[i]);
    assert ops[..i + 1][..i] == ops[..i];
    assert (rs + [r])[..|rs|] == rs;
  }

  /** Every run of operations is sound. */
  lemma {:induction false} OperationsSound(initial: nat, ops: seq<Operation>)
    ensures SoundRun(Account(0, initial, 0, 0), Requests(Account(0, initial, 0, 0), ops))
  {
    if ops != [] {
      var a, init, n := Account(0, initial, 0, 0), ops[..|ops| - 1], |ops| - 1;
      OperationsSound(initial, init);
      var rs := Requests(a, init);
      CopyingIsLinear(initial, rs);
      RequestsStep(a, ops, n);
      assert ops[..n + 1] == ops;
      var r := RequestOf(Run(a, rs).size, ops[n]);
      assert (rs + [r])[..|rs|] == rs;
    }
  }

  class MemoryBuffer {
    var ptr: array<char>
    var size: nat
    ghost var copied: nat
    ghost var largest: nat

    ghost predicate Valid()
      reads this
    {
      size <= ptr.Length
    }

    function Contents(): string
      reads this, ptr
      requires Valid()
    {
      ptr[..size]
    }

    function Room(): Space
      reads this
    {
      Space(size, ptr.Length)
    }

    ghost function Books(): Account
      reads this
    {
      Account(size, ptr.Length, copied, largest)
    }

    constructor (capacity: nat)
      ensures Valid() && fresh(ptr)
      ensures Contents() == "" && Books() == Account(0, capacity, 0, 0)
    {
      ptr := new char[capacity];
      size, copied, largest := 0, 0, 0;
    }

    /** Moves the contents to bigger storage. */
    method Grow(request: nat)
      requires Valid() && request > ptr.Length
      modifies this`ptr, this`copied
      ensures Valid() && fresh(ptr) && ptr.Length == GrownCapacity(old(ptr.Length), request)
      ensures Contents() == old(Contents())
      ensures copied == old(copied) + size
    {
      HalfAgainIs(ptr.Length);
      var newCapacity := ptr.Length + ptr.Length / 2;
      if request > newCapacity {
        newCapacity := request;
      }
      var newPtr := new char[newCapacity];
      forall i | 0 <= i < size {
        newPtr[i] := ptr[i];
      }
      copied := copied + size;
      ptr := newPtr;
    }

    ghost predicate Moved(before: array<char>, capacity: nat, request: nat)
      reads this
    {
      ptr == before <==> request <= capacity
    }

    method Reserve(request: nat)
      requires Valid()
      modifies this
      ensures Valid() && (ptr == old(ptr) || fresh(ptr)) && Moved(old(ptr), old(ptr.Length), request)
      ensures Contents() == old(Contents())
      ensures Books() == Charge(old(Books()), Request(request, old(size)))
    {
      largest := if request > largest then request else largest;
      if request > ptr.Length {
        Grow(request);
      }
    }

    /** New elements are whatever the storage holds. */
    method Resize(newSize: nat)
      requires Valid()
      modifies this
      ensures Valid() && (ptr == old(ptr) || fresh(ptr)) && Moved(old(ptr), old(ptr.Length), newSize)
      ensures size == newSize
      ensures forall i | 0 <= i < newSize && i < old(size) :: Contents()[i] == old(Contents())[i]
      ensures Books() == Charge(old(Books()), Request(newSize, newSize))
    {
      ghost var before := Contents();
      largest := if newSize > largest then newSize else largest;
      if newSize > ptr.Length {
        Grow(newSize);
      }
      assert forall i | 0 <= i < size :: ptr[i] == before[i];
      size := newSize;
    }

    method PushBack(value: char)
      requires Valid()
      modifies this, ptr
      ensures Valid() && (ptr == old(ptr) || fresh(ptr))
      ensures Contents() == old(Contents()) + [value]
      ensures Books() == Charge(old(Books()), Request(old(size) + 1, old(size) + 1))
    {
      largest := if size + 1 > largest then size + 1 else largest;
      ghost var before := Contents();
      if size == ptr.Length {
        Grow(size + 1);
      }
      ptr[size] := value;
      size := size + 1;
      assert Contents() == before + [value];
    }

    method Append(text: string)
      requires Valid()
      modifies this, ptr
      ensures Valid() && (ptr == old(ptr) || fresh(ptr))
      ensures Contents() == old(Contents()) + text
      ensures Books() == Charge(old(Books()), Request(old(size) + |text|, old(size) + |text|))
    {
      var newSize := size + |text|;
      largest := if newSize > largest then newSize else largest;
      ghost var before := Contents();
      if newSize > ptr.Length {
        Grow(newSize);
      }
      assert Contents() == before;
      forall i | 0 <= i < |text| {
        ptr[size + i] := text[i];
      }
      size := newSize;
      assert Contents() == before + text;
    }

    method Clear()
      requires Valid()
      modifies this`size
      ensures Valid() && Contents() == ""
      ensures Books() == Charge(old(Books()), Request(0, 0))
    {
      size := 0;
    }

    method Apply(op: Operation)
      requires Valid()
      modifies this, ptr
      ensures Valid() && (ptr == old(ptr) || fresh(ptr))
      ensures Effect(old(Contents()), op, Contents())
      ensures Books() == Charge(old(Books()), RequestOf(old(size), op))
    {
      match op
      case DoReserve(n) => Reserve(n);
      case DoResize(n) => Resize(n);
      case DoPush(c) => PushBack(c);
      case DoAppend(t) => Append(t);
      case DoClear => Clear();
    }

    /**
     * A run of operations on a fresh buffer: `history` is a plain sequence going through the same
     * operations, and copying is linear in what the capacity has gained.
     */
    method Perform(ops: seq<Operation>) returns (ghost history: seq<string>)
      requires Valid() && size == copied == largest == 0
      modifies this, ptr
      ensures Valid() && |history| == |ops| + 1 && history[0] == old(Contents()) && history[|ops|] == Contents()
      ensures forall i | 0 <= i < |ops| :: Effect(history[i], ops[i], history[i + 1])
      ensures copied <= 3 * (ptr.Length - old(ptr.Length))
      ensures ptr.Length == old(ptr.Length) || 2 * ptr.Length <= 3 * largest
    {
      ghost var a := Books();
      history := [Contents()];
      for i := 0 to |ops|
        invariant Valid() && (ptr == old(ptr) || fresh(ptr))
        invariant |history| == i + 1 && history[0] == old(Contents()) && history[i] == Contents()
        invariant forall j | 0 <= j < i :: Effect(history[j], ops[j], history[j + 1])
        invariant Books() == Run(a, Requests(a, ops[..i]))
      {
        RequestsStep(a, ops, i);
        Apply(ops[i]);
        history := history + [Contents()];
      }
      assert ops[..|ops|] == ops;
      OperationsSound(a.capacity, ops);
      CopyingIsLinear(a.capacity, Requests(a, ops));
    }
  }
}
