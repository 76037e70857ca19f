/** The queue run by one thread alone, as a class over its array of cells. */
module BoundedQueue {
  import opened Options
  import opened Arithmetic
  import opened BitMask
  import opened MpmcQueue

  class MpmcBoundedQueue<T(0)> {
    const maxSize: nat
    const buffer: array<Cell<T>>
    const bufferMask: nat
    var enqueuePos: nat
    var dequeuePos: nat

    function Slot(pos: nat): nat {
      And(pos, bufferMask)
    }

    /** Every cell is either published or free for the next ticket that falls into it. */
    ghost predicate Valid()
      reads this, buffer
    {
      && Sized() && buffer.Length == maxSize
      && dequeuePos <= enqueuePos <= dequeuePos + maxSize
      && (forall k | dequeuePos <= k < enqueuePos :: buffer[Slot(k)].sequence == k + 1)
      && (forall k | enqueuePos <= k < dequeuePos + maxSize :: buffer[Slot(k)].sequence == k)
    }

    ghost function Contents(): seq<T>
      reads this, buffer
      requires Valid()
    {
      seq(enqueuePos - dequeuePos,
          i requires 0 <= i < enqueuePos - dequeuePos && Valid() reads this, buffer =>
            buffer[Slot(dequeuePos + i)].data)
    }

    /** The constructor proper; `Create` is where a bad size is turned away. */
    constructor (size: nat)
      requires SizeAccepted(size)
      ensures Valid() && fresh(buffer)
      ensures maxSize == size && Contents() == []
    {
      maxSize := size;
      bufferMask := size - 1;
      buffer := new Cell<T>[size];
      enqueuePos, dequeuePos := 0, 0;
      new;
      var i := 0;
      while i != size
        invariant i <= size && enqueuePos == dequeuePos == 0
        invariant forall k | 0 <= k < i :: buffer[k].sequence == k
      {
        buffer[i] := buffer[i].(sequence := i);
        i := i + 1;
      }
      forall k | 0 <= k < size ensures Slot(k) == k {
        FirstLap(k);
      }
    }

    /** A size that is not a power of two is refused (the original throws). */
    static method Create(size: nat) returns (r: Option<MpmcBoundedQueue<T>>)
      ensures r.Some? <==> size >= 2 && IsPowerOfTwo(size)
      ensures r.Some? ==>
        fresh(r.value) && fresh(r.value.buffer) && r.value.Valid()
        && r.value.maxSize == size && r.value.Contents() == []
    {
      SizeAcceptedIff(size);
      if !SizeAccepted(size) {
        return None;
      }
      var q := new MpmcBoundedQueue<T>(size);
      return Some(q);
    }

    /**
     * Appends `data` if there is room. The weak compare-and-swap may fail `spurious` times without
     * cause before it succeeds.
     */
    method Enqueue(data: T, spurious: nat) returns (ok: bool)
      requires Valid()
      modifies this`enqueuePos, buffer
      ensures Valid()
      ensures ok <==> |old(Contents())| < maxSize
      ensures Contents() == if ok then old(Contents()) + [data] else old(Contents())
    {
      ghost var before := Contents();
      var pos;
      pos, ok := Claim(spurious);
      if !ok {
        return;
      }
      Publish(pos, data, before);
    }

    /** The loop of `Enqueue`: it wins the next position, or finds the queue full. */
    method Claim(spurious: nat) returns (pos: nat, ok: bool)
      requires Valid()
      modifies this`enqueuePos
      ensures pos == old(enqueuePos) && (ok <==> pos < dequeuePos + maxSize)
      ensures enqueuePos == if ok then pos + 1 else pos
      ensures !ok ==> Valid() && Contents() == old(Contents())
    {
      pos := enqueuePos;
      var failures := spurious;
      while true
        invariant pos == enqueuePos == old(enqueuePos)
        decreases failures
      {
        NextCell();
        var seqNo := buffer[Slot(pos)].sequence;
        var dif := seqNo as int - pos as int;
        if dif == 0 {
          if failures == 0 {
            enqueuePos := pos + 1;
            return pos, true;
          }
          failures := failures - 1;
          pos := enqueuePos;
        } else if dif < 0 {
          return pos, false;
        } else {
          assert false;
        }
      }
    }

    /** Fills and publishes the cell of a position that has just been claimed. */
    method Publish(pos: nat, data: T, ghost before: seq<T>)
      requires Sized() && buffer.Length == maxSize
      requires dequeuePos <= pos < dequeuePos + maxSize && enqueuePos == pos + 1
      requires forall k | dequeuePos <= k < pos :: buffer[Slot(k)].sequence == k + 1
      requires forall k | pos <= k < dequeuePos + maxSize :: buffer[Slot(k)].sequence == k
      requires |before| == pos - dequeuePos
      requires forall i | 0 <= i < |before| :: buffer[Slot(dequeuePos + i)].data == before[i]
      modifies buffer
      ensures Valid() && Contents() == before + [data]
    {
      OthersApart(dequeuePos, pos);
      buffer[Slot(pos)] := Cell(pos + 1, data);
    }

    /** Removes the oldest item if there is one. */
    method Dequeue(spurious: nat, left: T) returns (r: Option<T>)
      requires Valid()
      modifies this`dequeuePos, buffer
      ensures Valid()
      ensures r == if old(Contents()) == [] then None else Some(old(Contents())[0])
      ensures Contents() == if r.Some? then old(Contents())[1..] else old(Contents())
    {
      var pos := dequeuePos;
      var failures := spurious;
      while true
        invariant pos == dequeuePos == old(dequeuePos) && Valid()
        invariant unchanged(buffer)
        decreases failures
      {
        var seqNo := buffer[Slot(pos)].sequence;
        var dif := seqNo as int - (pos + 1) as int;
        if dif == 0 {
          if failures == 0 {
            dequeuePos := pos + 1;
            break;
          }
          failures := failures - 1;
          pos := dequeuePos;
        } else if dif < 0 {
          return None;
        } else {
          assert false;
        }
      }
      ghost var before := old(Contents());
      var value := buffer[Slot(pos)].data;
      assert value == before[0];
      buffer[Slot(pos)] := Cell(pos + bufferMask + 1, left);
      SlotWraps(pos);
      OthersApart(pos, pos);
      assert Contents() == before[1..];
      return Some(value);
    }

    /** Exact, because nothing moves between the two loads. */
    method ApproxSize() returns (size: nat)
      requires Valid()
      ensures size == |Contents()|
    {
      var firstPos := dequeuePos;
      var lastPos := enqueuePos;
      if lastPos <= firstPos {
        return 0;
      }
      size := lastPos - firstPos;
      size := if size < maxSize then size else maxSize;
    }

    ghost predicate Sized() {
      SizeAccepted(maxSize) && bufferMask == maxSize - 1
    }

    lemma SlotWraps(j: nat)
      requires Sized()
      ensures Slot(j + maxSize) == Slot(j)
    {
      SizeAcceptedIff(maxSize);
      MaskIsModulo(j, maxSize);
      MaskIsModulo(j + maxSize, maxSize);
      NextLap(j, maxSize);
    }

    /** The cell a producer looks at is free, or still holds the oldest item of a full queue. */
    lemma NextCell()
      requires Valid()
      ensures buffer[Slot(enqueuePos)].sequence
              == if enqueuePos < dequeuePos + maxSize then enqueuePos else dequeuePos + 1
      ensures dequeuePos + 1 < dequeuePos + maxSize
    {
      SlotWraps(dequeuePos);
    }

    /** Within one lap from `first`, no position shares the cell of `pos`. */
    lemma OthersApart(first: nat, pos: nat)
      requires Sized() && first <= pos < first + maxSize
      ensures forall k | first <= k < first + maxSize && k != pos :: Slot(k) != Slot(pos)
    {
      SizeAcceptedIff(maxSize);
      MaskIsModulo(pos, maxSize);
      forall k | first <= k < first + maxSize && k != pos ensures Slot(k) != Slot(pos) {
        MaskIsModulo(k, maxSize);
        RemaindersDiffer(k, pos, maxSize);
      }
    }

    lemma FirstLap(k: nat)
      requires Sized() && k < maxSize
      ensures Slot(k) == k
    {
      SizeAcceptedIff(maxSize);
      MaskIsModulo(k, maxSize);
      QuotientUnique(k, maxSize, 0, k);
    }
  }
}
