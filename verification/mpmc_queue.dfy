/**
 * The bounded multi-producer multi-consumer queue as an interleaved step machine.
 *
 * Every shared access of `enqueue`, `dequeue` and `approx_size` is one step of one thread, so any
 * interleaving of any number of threads is a sequence of `Next` steps. Steps are sequentially
 * consistent and positions are unbounded.
 */
module MpmcQueue {
  import opened Options
  import opened Arithmetic
  import opened BitMask

  type ThreadId = nat

  datatype Cell<T> = Cell(sequence: nat, data: T)

  /** Where a thread stands. The names say which access comes next. */
  datatype Pc<T> =
    | Idle
    // enqueue
    | EnqLoadPos(item: T)
    | EnqLoadSeq(item: T, pos: nat)
    | EnqCas(item: T, pos: nat)
    | EnqMove(item: T, pos: nat)
    | EnqPublish(item: T, pos: nat)
    | EnqTrue(item: T, pos: nat)
    | EnqFalse(item: T)
    // dequeue
    | DeqLoadPos
    | DeqLoadSeq(pos: nat)
    | DeqCas(pos: nat)
    | DeqMove(pos: nat)
    | DeqRelease(pos: nat, value: T)
    | DeqTrue(pos: nat, value: T)
    | DeqFalse
    // approx_size
    | SizeLoadDeq
    | SizeLoadEnq(first: nat)
    | SizeDone(result: nat)

  /** The life of a ticket once a producer's compare-and-swap has claimed it. */
  datatype Phase<T> =
    | Writing
    | Published
    | Reading(consumer: ThreadId)
    | Released(consumer: ThreadId, value: T)

  /** History: who won this ticket, what it was asked to enqueue, and how far the ticket got. */
  datatype Ticket<T> = Ticket(item: T, producer: ThreadId, phase: Phase<T>)

  datatype State<T> = State(
    size: nat,
    cells: seq<Cell<T>>,
    enqueuePos: nat,
    dequeuePos: nat,
    pcs: map<ThreadId, Pc<T>>,
    tickets: seq<Ticket<T>>)

  /**
   * What a thread does next. `Step` is the next access; `CasFails` is a failing weak
   * compare-and-swap, spurious or not; `MoveOut` reads the cell and leaves any value behind.
   */
  datatype Action<T> =
    | BeginEnqueue(item: T)
    | BeginDequeue
    | BeginSize
    | Step
    | CasFails
    | MoveOut(left: T)
    | Return

  function At<T>(s: State<T>, t: ThreadId): Pc<T> {
    if t in s.pcs then s.pcs[t] else Idle
  }

  function Go<T>(s: State<T>, t: ThreadId, pc: Pc<T>): State<T> {
    s.(pcs := s.pcs[t := pc])
  }

  ghost predicate Shaped<T>(s: State<T>) {
    SizeAccepted(s.size) && |s.cells| == s.size
  }

  /** The cell a position falls into: `pos & buffer_mask_`. */
  function Slot<T>(s: State<T>, pos: nat): (i: nat)
    requires s.size >= 1
    ensures i < s.size
  {
    And(pos, s.size - 1)
  }

  function Sequence<T>(s: State<T>, pos: nat): nat
    requires Shaped(s)
  {
    s.cells[Slot(s, pos)].sequence
  }

  /** A queue fresh from its constructor; the cells hold whatever the item type defaults to. */
  ghost predicate IsInit<T>(s: State<T>) {
    && Shaped(s)
    && s.enqueuePos == s.dequeuePos == 0 && s.pcs == map[] && s.tickets == []
    && (forall i | 0 <= i < s.size :: s.cells[i].sequence == i)
  }

  function SetPhase<T>(s: State<T>, pos: nat, phase: Phase<T>): State<T>
    requires pos < |s.tickets|
  {
    s.(tickets := s.tickets[pos := s.tickets[pos].(phase := phase)])
  }

  function SetCell<T>(s: State<T>, pos: nat, cell: Cell<T>): State<T>
    requires Shaped(s)
  {
    s.(cells := s.cells[Slot(s, pos) := cell])
  }

  /** One step of thread `t`, or `None` when that step is not what the thread does next. */
  function Next<T>(s: State<T>, t: ThreadId, a: Action<T>): Option<State<T>>
    requires Shaped(s)
  {
    match (At(s, t), a)
    case (Idle, BeginEnqueue(item)) => Some(Go(s, t, EnqLoadPos(item)))
    case (Idle, BeginDequeue) => Some(Go(s, t, DeqLoadPos))
    case (Idle, BeginSize) => Some(Go(s, t, SizeLoadDeq))

    case (EnqLoadPos(item), Step) => Some(Go(s, t, EnqLoadSeq(item, s.enqueuePos)))
    case (EnqLoadSeq(item, pos), Step) =>
      var dif := Sequence(s, pos) - pos;
      Some(Go(s, t, if dif == 0 then EnqCas(item, pos)
                    else if dif < 0 then EnqFalse(item)
                    else EnqLoadPos(item)))
    case (EnqCas(item, pos), Step) =>
      if s.enqueuePos != pos then None
      else Some(Go(s, t, EnqMove(item, pos)).(
        enqueuePos := pos + 1,
        tickets := s.tickets + [Ticket(item, t, Writing)]))
    case (EnqCas(item, _), CasFails) => Some(Go(s, t, EnqLoadSeq(item, s.enqueuePos)))
    case (EnqMove(item, pos), Step) =>
      Some(SetCell(Go(s, t, EnqPublish(item, pos)), pos, Cell(Sequence(s, pos), item)))
    case (EnqPublish(item, pos), Step) =>
      var cell := Cell(pos + 1, s.cells[Slot(s, pos)].data);
      var s' := SetCell(Go(s, t, EnqTrue(item, pos)), pos, cell);
      if pos < |s.tickets| then Some(SetPhase(s', pos, Published)) else None
    case (EnqTrue(_, _), Return) => Some(Go(s, t, Idle))
    case (EnqFalse(_), Return) => Some(Go(s, t, Idle))

    case (DeqLoadPos, Step) => Some(Go(s, t, DeqLoadSeq(s.dequeuePos)))
    case (DeqLoadSeq(pos), Step) =>
      var dif := Sequence(s, pos) - (pos + 1);
      Some(Go(s, t, if dif == 0 then DeqCas(pos)
                    else if dif < 0 then DeqFalse
                    else DeqLoadPos))
    case (DeqCas(pos), Step) =>
      if s.dequeuePos != pos || pos >= |s.tickets| then None
      else Some(SetPhase(Go(s, t, DeqMove(pos)).(dequeuePos := pos + 1), pos, Reading(t)))
    case (DeqCas(pos), CasFails) => Some(Go(s, t, DeqLoadSeq(s.dequeuePos)))
    case (DeqMove(pos), MoveOut(left)) =>
      var cell := s.cells[Slot(s, pos)];
      Some(SetCell(Go(s, t, DeqRelease(pos, cell.data)), pos, cell.(data := left)))
    case (DeqRelease(pos, value), Step) =>
      var cell := Cell(pos + s.size, s.cells[Slot(s, pos)].data);
      var s' := SetCell(Go(s, t, DeqTrue(pos, value)), pos, cell);
      if pos < |s.tickets| then Some(SetPhase(s', pos, Released(t, value))) else None
    case (DeqTrue(_, _), Return) => Some(Go(s, t, Idle))
    case (DeqFalse, Return) => Some(Go(s, t, Idle))

    case (SizeLoadDeq, Step) => Some(Go(s, t, SizeLoadEnq(s.dequeuePos)))
    case (SizeLoadEnq(first), Step) => Some(Go(s, t, SizeDone(ApproxSize(s.size, first, s.enqueuePos))))
    case (SizeDone(_), Return) => Some(Go(s, t, Idle))

    case _ => None
  }

  /** The value `approx_size` computes from its two loads. */
  function ApproxSize(size: nat, first: nat, last: nat): (r: nat)
    ensures r <= size
    ensures r == 0 <==> last <= first || size == 0
    ensures first <= last <= first + size ==> r == last - first
  {
    if last <= first then 0
    else if last - first < size then last - first else size
  }

  // ---- the invariant -------------------------------------------------------------------------

  /** A ticket's phase fixes its cell's sequence number, its side of `dequeuePos` and its owner. */
  ghost predicate TicketOk<T>(s: State<T>, k: nat)
    requires Shaped(s) && k < |s.tickets|
  {
    var cell := s.cells[Slot(s, k)];
    var item, p := s.tickets[k].item, s.tickets[k].producer;
    var inWindow := s.enqueuePos <= k + s.size;
    match s.tickets[k].phase
    case Writing =>
      && s.dequeuePos <= k && inWindow && cell.sequence == k
      && (At(s, p) == EnqMove(item, k) || (At(s, p) == EnqPublish(item, k) && cell.data == item))
    case Published =>
      s.dequeuePos <= k && inWindow && cell.sequence == k + 1 && cell.data == item
    case Reading(c) =>
      && k < s.dequeuePos && inWindow && cell.sequence == k + 1
      && ((At(s, c) == DeqMove(k) && cell.data == item) || At(s, c) == DeqRelease(k, item))
    case Released(_, value) =>
      k < s.dequeuePos && value == item && (inWindow ==> cell.sequence == k + s.size)
  }

  /** What a thread remembers of its position stays true whatever the others do. */
  ghost predicate ThreadOk<T>(s: State<T>, t: ThreadId)
    requires Shaped(s)
  {
    match At(s, t)
    case EnqLoadSeq(_, pos) => pos <= s.enqueuePos
    case EnqCas(_, pos) => pos <= s.enqueuePos && pos <= Sequence(s, pos)
    case EnqMove(item, pos) => pos < |s.tickets| && s.tickets[pos] == Ticket(item, t, Writing)
    case EnqPublish(item, pos) => pos < |s.tickets| && s.tickets[pos] == Ticket(item, t, Writing)
    case EnqTrue(item, pos) => pos < |s.tickets| && s.tickets[pos].item == item && s.tickets[pos].producer == t
    case DeqLoadSeq(pos) => pos <= s.dequeuePos
    case DeqCas(pos) => pos <= s.dequeuePos && pos + 1 <= Sequence(s, pos)
    case DeqMove(pos) => pos < |s.tickets| && s.tickets[pos].phase == Reading(t)
    case DeqRelease(pos, value) =>
      pos < |s.tickets| && s.tickets[pos].item == value && s.tickets[pos].phase == Reading(t)
    case DeqTrue(pos, value) =>
      pos < |s.tickets| && s.tickets[pos].item == value && s.tickets[pos].phase == Released(t, value)
    case SizeLoadEnq(first) => first <= s.dequeuePos
    case _ => true
  }

  ghost predicate Inv<T>(s: State<T>) {
    && Shaped(s)
    && |s.tickets| == s.enqueuePos
    && s.dequeuePos <= s.enqueuePos <= s.dequeuePos + s.size
    && (forall i | s.enqueuePos <= i < s.size :: s.cells[i].sequence == i)
    && (forall k | 0 <= k < s.enqueuePos :: TicketOk(s, k))
    && (forall t: ThreadId :: ThreadOk(s, t))
  }

  // ---- slots ---------------------------------------------------------------------------------

  lemma SlotIsModulo<T>(s: State<T>, pos: nat)
    requires Shaped(s)
    ensures Slot(s, pos) == pos % s.size
  {
    SizeAcceptedIff(s.size);
    MaskIsModulo(pos, s.size);
  }

  lemma SlotOfNextLap<T>(s: State<T>, pos: nat)
    requires Shaped(s)
    ensures Slot(s, pos + s.size) == Slot(s, pos)
  {
    SlotIsModulo(s, pos);
    SlotIsModulo(s, pos + s.size);
    NextLap(pos, s.size);
  }

  lemma SlotOfFirstLap<T>(s: State<T>, pos: nat)
    requires Shaped(s) && pos < s.size
    ensures Slot(s, pos) == pos
  {
    SlotIsModulo(s, pos);
    QuotientUnique(pos, s.size, 0, pos);
  }

  /** Two tickets less than a lap apart never share a cell. */
  lemma SlotsDistinct<T>(s: State<T>, j: nat, k: nat)
    requires Shaped(s) && j < k < j + s.size
    ensures Slot(s, j) != Slot(s, k)
  {
    SlotIsModulo(s, j);
    SlotIsModulo(s, k);
    RemaindersDiffer(j, k, s.size);
  }

  /** The sequence number of a claimed ticket's cell has reached that ticket, however old it is. */
  lemma {:induction false} SequenceReached<T>(s: State<T>, k: nat)
    requires Inv(s) && k < s.enqueuePos
    ensures Sequence(s, k) >= k
    ensures k < s.dequeuePos ==> Sequence(s, k) >= k + 1
    decreases s.enqueuePos - k
  {
    assert TicketOk(s, k);
    if k + s.size < s.enqueuePos {
      SequenceReached(s, k + s.size);
      SlotOfNextLap(s, k);
    }
  }
}
