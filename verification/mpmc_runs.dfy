/** What the queue promises, over every run of any number of producers and consumers. */
module MpmcRuns {
  import opened Options
  import opened MpmcQueue
  import opened MpmcInvariant

  datatype Move<T> = Move(thread: ThreadId, action: Action<T>)

  /** A run: the states a queue goes through from its construction, one step of one thread each. */
  ghost predicate IsRun<T>(states: seq<State<T>>, moves: seq<Move<T>>) {
    && |states| == |moves| + 1
    && IsInit(states[0])
    && (forall i | 0 <= i < |moves| :: StepAt(states, moves, i))
  }

  ghost predicate StepAt<T>(states: seq<State<T>>, moves: seq<Move<T>>, i: nat)
    requires i < |moves| && i + 1 < |states|
  {
    Shaped(states[i]) && Next(states[i], moves[i].thread, moves[i].action) == Some(states[i + 1])
  }

  /** The invariant holds in every reachable state. */
  lemma {:induction false} RunKeepsInv<T>(states: seq<State<T>>, moves: seq<Move<T>>, i: nat)
    requires IsRun(states, moves) && i < |states|
    ensures Inv(states[i])
  {
    if i == 0 {
      InitEstablishesInv(states[0]);
    } else {
      RunKeepsInv(states, moves, i - 1);
      assert StepAt(states, moves, i - 1);
      NextKeepsInv(states[i - 1], moves[i - 1].thread, moves[i - 1].action);
    }
  }

  /**
   * First-in first-out without loss or duplication: a consumer that returns from ticket `k` returns
   * what the producer that won ticket `k` was given, and the positions stay within one lap.
   */
  lemma DequeuedIsEnqueued<T>(states: seq<State<T>>, moves: seq<Move<T>>, i: nat)
    requires IsRun(states, moves) && i < |states|
    ensures var s := states[i];
      && s.dequeuePos <= s.enqueuePos <= s.dequeuePos + s.size && |s.tickets| == s.enqueuePos
      && (forall t: ThreadId | At(s, t).DeqTrue? :: At(s, t).pos < s.dequeuePos
            && s.tickets[At(s, t).pos].item == At(s, t).value
            && s.tickets[At(s, t).pos].phase == Released(t, At(s, t).value))
      && (forall k | 0 <= k < s.enqueuePos && s.tickets[k].phase.Released? ::
            s.tickets[k].phase.value == s.tickets[k].item)
  {
    var s := states[i];
    RunKeepsInv(states, moves, i);
    forall t: ThreadId | At(s, t).DeqTrue?
      ensures At(s, t).pos < s.dequeuePos
        && s.tickets[At(s, t).pos].item == At(s, t).value
        && s.tickets[At(s, t).pos].phase == Released(t, At(s, t).value)
    {
      assert ThreadOk(s, t) && TicketOk(s, At(s, t).pos);
    }
    forall k | 0 <= k < s.enqueuePos && s.tickets[k].phase.Released?
      ensures s.tickets[k].phase.value == s.tickets[k].item
    {
      assert TicketOk(s, k);
    }
  }

  /** Between its winning compare-and-swap and its sequence store a thread shares its cell with no one. */
  lemma ExclusiveCell<T>(states: seq<State<T>>, moves: seq<Move<T>>, i: nat, t: ThreadId, u: ThreadId)
    requires IsRun(states, moves) && i < |states| && t != u
    requires Owns(At(states[i], t)) && Owns(At(states[i], u))
    ensures Shaped(states[i])
    ensures Slot(states[i], At(states[i], t).pos) != Slot(states[i], At(states[i], u).pos)
  {
    var s := states[i];
    RunKeepsInv(states, moves, i);
    var j, k := At(s, t).pos, At(s, u).pos;
    assert ThreadOk(s, t) && ThreadOk(s, u);
    assert TicketOk(s, j) && TicketOk(s, k);
    OtherCell(s, j, k);
  }

  /**
   * `enqueue` gives up exactly when, at its sequence load, its position is still `enqueue_pos_` and
   * the ticket one lap behind is not yet released: the queue is full, even if the position was stale.
   */
  lemma EnqueueFailsIffFull<T>(states: seq<State<T>>, moves: seq<Move<T>>, i: nat, t: ThreadId)
    requires IsRun(states, moves) && i < |states| && At(states[i], t).EnqLoadSeq?
    ensures Shaped(states[i])
    ensures var s, pos := states[i], At(states[i], t).pos;
      && Next(s, t, Step).Some? && |s.tickets| == s.enqueuePos
      && (At(Next(s, t, Step).value, t).EnqFalse? <==>
            && pos == s.enqueuePos && pos >= s.size
            && !s.tickets[pos - s.size].phase.Released?)
  {
    var s, pos := states[i], At(states[i], t).pos;
    RunKeepsInv(states, moves, i);
    assert ThreadOk(s, t);
    if pos < s.enqueuePos {
      SequenceReached(s, pos);
    } else if pos >= s.size {
      assert TicketOk(s, pos - s.size);
      SlotOfNextLap(s, pos - s.size);
    } else {
      SlotOfFirstLap(s, pos);
    }
  }

  /**
   * `dequeue` gives up exactly when, at its sequence load, its position is still `dequeue_pos_` and
   * that ticket is not yet published.
   */
  lemma DequeueFailsIffEmpty<T>(states: seq<State<T>>, moves: seq<Move<T>>, i: nat, t: ThreadId)
    requires IsRun(states, moves) && i < |states| && At(states[i], t).DeqLoadSeq?
    ensures Shaped(states[i])
    ensures var s, pos := states[i], At(states[i], t).pos;
      && Next(s, t, Step).Some? && |s.tickets| == s.enqueuePos
      && (At(Next(s, t, Step).value, t).DeqFalse? <==>
            && pos == s.dequeuePos
            && (pos < s.enqueuePos ==> s.tickets[pos].phase.Writing?))
  {
    RunKeepsInv(states, moves, i);
    DequeueFailsInv(states[i], t);
  }

  lemma DequeueFailsInv<T>(s: State<T>, t: ThreadId)
    requires Inv(s) && At(s, t).DeqLoadSeq?
    ensures var pos := At(s, t).pos;
      At(Next(s, t, Step).value, t).DeqFalse? <==>
        && pos == s.dequeuePos
        && (pos < s.enqueuePos ==> s.tickets[pos].phase.Writing?)
  {
    var pos := At(s, t).pos;
    assert ThreadOk(s, t);
    if pos < s.dequeuePos {
      SequenceReached(s, pos);
    } else if pos < s.enqueuePos {
      assert TicketOk(s, pos);
    } else if pos >= s.size {
      assert TicketOk(s, pos - s.size);
      SlotOfNextLap(s, pos - s.size);
    } else {
      SlotOfFirstLap(s, pos);
    }
  }

  // ---- how the history grows -----------------------------------------------------------------

  function Rank<T>(phase: Phase<T>): nat {
    match phase
    case Writing => 0
    case Published => 1
    case Reading(_) => 2
    case Released(_, _) => 3
  }

  /** Later histories extend earlier ones: items never change, phases only advance. */
  ghost predicate Extends<T>(s: State<T>, s': State<T>) {
    && s.size == s'.size
    && s.enqueuePos <= s'.enqueuePos && s.dequeuePos <= s'.dequeuePos
    && |s.tickets| <= |s'.tickets|
    && (forall k | 0 <= k < |s.tickets| :: TicketExtends(s.tickets[k], s'.tickets[k]))
  }

  ghost predicate TicketExtends<T>(a: Ticket<T>, b: Ticket<T>) {
    && a.item == b.item && a.producer == b.producer && Rank(a.phase) <= Rank(b.phase)
    && (Rank(a.phase) == Rank(b.phase) ==> a == b)
  }

  lemma NextExtends<T>(s: State<T>, t: ThreadId, a: Action<T>)
    requires Inv(s) && Next(s, t, a).Some?
    ensures Extends(s, Next(s, t, a).value)
  {
    assert ThreadOk(s, t);
    if At(s, t).DeqCas? && a.Step? {
      WinnerIsPublished(s, t);
    }
  }

  lemma {:induction false} RunExtends<T>(states: seq<State<T>>, moves: seq<Move<T>>, i: nat, j: nat)
    requires IsRun(states, moves) && i <= j < |states|
    ensures Extends(states[i], states[j])
    decreases j
  {
    if i < j {
      RunExtends(states, moves, i, j - 1);
      RunKeepsInv(states, moves, j - 1);
      assert StepAt(states, moves, j - 1);
      NextExtends(states[j - 1], moves[j - 1].thread, moves[j - 1].action);
      forall k | 0 <= k < |states[i].tickets|
        ensures TicketExtends(states[i].tickets[k], states[j].tickets[k])
      {
        assert TicketExtends(states[i].tickets[k], states[j - 1].tickets[k]);
        assert TicketExtends(states[j - 1].tickets[k], states[j].tickets[k]);
      }
    }
  }

  /**
   * Exactly once: no two dequeues, by whichever threads and however far apart in the run, return
   * from the same ticket.
   */
  lemma TicketReturnedOnce<T>(states: seq<State<T>>, moves: seq<Move<T>>, i: nat, j: nat)
    requires IsRun(states, moves) && i < j < |moves|
    requires ReturnsTrueAt(states, moves, i) && ReturnsTrueAt(states, moves, j)
    ensures ReturnedTicket(states, moves, i) != ReturnedTicket(states, moves, j)
  {
    var t, k := moves[i].thread, ReturnedTicket(states, moves, i);
    RunKeepsInv(states, moves, i);
    RunKeepsInv(states, moves, j);
    assert StepAt(states, moves, i) && StepAt(states, moves, j);
    assert ThreadOk(states[i], t);
    assert TicketOk(states[i], k);
    RunExtends(states, moves, i + 1, j);
    assert TicketExtends(states[i + 1].tickets[k], states[j].tickets[k]);
    assert ThreadOk(states[j], moves[j].thread);
  }

  /** Step `i` is the sequence store with which a dequeue completes. */
  ghost predicate ReturnsTrueAt<T>(states: seq<State<T>>, moves: seq<Move<T>>, i: nat)
    requires i < |moves| && i < |states|
  {
    At(states[i], moves[i].thread).DeqRelease?
  }

  ghost function ReturnedTicket<T>(states: seq<State<T>>, moves: seq<Move<T>>, i: nat): nat
    requires i < |moves| && i < |states| && ReturnsTrueAt(states, moves, i)
  {
    At(states[i], moves[i].thread).pos
  }

  /** A call's ticket is at least the position read off before the call began: real-time order. */
  lemma TicketsFollowRealTime<T>(states: seq<State<T>>, moves: seq<Move<T>>, i: nat, j: nat)
    requires IsRun(states, moves) && i <= j < |moves|
    requires At(states[j], moves[j].thread).EnqCas? && moves[j].action.Step?
    ensures states[i].enqueuePos <= At(states[j], moves[j].thread).pos
    ensures states[j + 1].tickets
            == states[j].tickets + [Ticket(At(states[j], moves[j].thread).item, moves[j].thread, Writing)]
    ensures |states[j].tickets| == At(states[j], moves[j].thread).pos
  {
    RunExtends(states, moves, i, j);
    RunKeepsInv(states, moves, j);
    assert StepAt(states, moves, j);
  }

  // ---- conservation --------------------------------------------------------------------------

  /** No thread holds a ticket. */
  ghost predicate Quiet<T>(s: State<T>) {
    forall t: ThreadId :: !Owns(At(s, t))
  }

  /**
   * With no call in the middle, every ticket below `dequeue_pos_` was returned with its own item and
   * every ticket above it sits in its own cell, published: nothing is lost, duplicated or reordered.
   */
  lemma NothingLost<T>(states: seq<State<T>>, moves: seq<Move<T>>, i: nat)
    requires IsRun(states, moves) && i < |states| && Quiet(states[i])
    ensures var s := states[i];
      && Shaped(s) && s.dequeuePos <= |s.tickets| == s.enqueuePos
      && (forall k | 0 <= k < s.dequeuePos :: s.tickets[k].phase.Released? && s.tickets[k].phase.value == s.tickets[k].item)
      && (forall k | s.dequeuePos <= k < s.enqueuePos ::
            s.tickets[k].phase == Published && s.cells[Slot(s, k)] == Cell(k + 1, s.tickets[k].item))
  {
    var s := states[i];
    RunKeepsInv(states, moves, i);
    forall k | 0 <= k < s.enqueuePos
      ensures k < s.dequeuePos ==> s.tickets[k].phase.Released? && s.tickets[k].phase.value == s.tickets[k].item
      ensures s.dequeuePos <= k ==> s.tickets[k].phase == Published && s.cells[Slot(s, k)] == Cell(k + 1, s.tickets[k].item)
    {
      assert TicketOk(s, k);
      match s.tickets[k].phase
      case Writing => assert Owns(At(s, s.tickets[k].producer));
      case Reading(c) => assert Owns(At(s, c));
      case _ =>
    }
  }

  // ---- refinement ----------------------------------------------------------------------------

  /** The queue seen from outside: the items of the tickets claimed by producers but not by consumers. */
  function Contents<T>(s: State<T>): seq<T>
    requires s.dequeuePos <= s.enqueuePos == |s.tickets|
  {
    seq(s.enqueuePos - s.dequeuePos,
        i requires 0 <= i < s.enqueuePos - s.dequeuePos => s.tickets[s.dequeuePos + i].item)
  }

  lemma EnqueueAppends<T>(s: State<T>, t: ThreadId, s': State<T>)
    requires Inv(s) && At(s, t).EnqCas? && Next(s, t, Step) == Some(s')
    ensures s'.dequeuePos <= s'.enqueuePos == |s'.tickets| && s'.enqueuePos <= s'.dequeuePos + s.size
    ensures |Contents(s)| < s.size && Contents(s') == Contents(s) + [At(s, t).item]
  {
    NextKeepsInv(s, t, Step);
    assert s'.tickets == s.tickets + [Ticket(At(s, t).item, t, Writing)];
  }

  lemma DequeueRemoves<T>(s: State<T>, t: ThreadId, s': State<T>)
    requires Inv(s) && At(s, t).DeqCas? && Next(s, t, Step) == Some(s')
    ensures s'.dequeuePos <= s'.enqueuePos == |s'.tickets|
    ensures Contents(s) != [] && Contents(s') == Contents(s)[1..]
    ensures s'.tickets[At(s, t).pos].item == Contents(s)[0] && s'.tickets[At(s, t).pos].phase == Reading(t)
  {
    WinnerIsPublished(s, t);
  }

  /** Steps other than a winning swap leave the positions and the items alone. */
  lemma OtherStepsHide<T>(s: State<T>, t: ThreadId, a: Action<T>, s': State<T>)
    requires Shaped(s) && s.dequeuePos <= s.enqueuePos == |s.tickets| && Next(s, t, a) == Some(s')
    requires !(a.Step? && (At(s, t).EnqCas? || At(s, t).DeqCas?))
    ensures s'.dequeuePos == s.dequeuePos && s'.enqueuePos == s.enqueuePos && |s'.tickets| == |s.tickets|
    ensures forall k | 0 <= k < |s.tickets| :: s'.tickets[k].item == s.tickets[k].item
  {
  }

  /**
   * Every step refines a bounded first-in first-out queue: a winning enqueue swap appends its item to
   * a queue that has room, a winning dequeue swap removes the oldest item, and no other step shows.
   */
  lemma StepRefinesFifo<T>(s: State<T>, t: ThreadId, a: Action<T>, s': State<T>)
    requires Inv(s) && Next(s, t, a) == Some(s')
    ensures s'.dequeuePos <= s'.enqueuePos == |s'.tickets|
    ensures At(s, t).EnqCas? && a.Step? ==>
      |Contents(s)| < s.size && Contents(s') == Contents(s) + [At(s, t).item]
    ensures At(s, t).DeqCas? && a.Step? ==>
      && Contents(s) != [] && Contents(s') == Contents(s)[1..]
      && s'.tickets[At(s, t).pos].item == Contents(s)[0] && s'.tickets[At(s, t).pos].phase == Reading(t)
    ensures !(a.Step? && (At(s, t).EnqCas? || At(s, t).DeqCas?)) ==> Contents(s') == Contents(s)
  {
    if At(s, t).EnqCas? && a.Step? {
      EnqueueAppends(s, t, s');
    } else if At(s, t).DeqCas? && a.Step? {
      DequeueRemoves(s, t, s');
    } else {
      OtherStepsHide(s, t, a, s');
    }
  }

  // ---- approx_size ---------------------------------------------------------------------------

  /** Steps `i` and `j` are the two loads of one call of `approx_size` by thread `t`. */
  ghost predicate SizeCall<T>(states: seq<State<T>>, moves: seq<Move<T>>, i: nat, j: nat, t: ThreadId)
    requires IsRun(states, moves)
  {
    && i < j < |moves| && moves[i].thread == t == moves[j].thread
    && At(states[i], t).SizeLoadDeq?
    && (forall m | i < m < j :: moves[m].thread != t)
  }

  lemma {:induction false} SizeCallRemembers<T>(states: seq<State<T>>, moves: seq<Move<T>>, i: nat, j: nat, t: ThreadId, m: nat)
    requires IsRun(states, moves) && SizeCall(states, moves, i, j, t) && i < m <= j
    ensures At(states[m], t) == SizeLoadEnq(states[i].dequeuePos)
  {
    assert StepAt(states, moves, m - 1);
    if i + 1 < m {
      SizeCallRemembers(states, moves, i, j, t, m - 1);
      assert moves[m - 1].thread != t;
    }
  }

  /**
   * `approx_size` never exceeds the capacity. Zero means that the two positions were equal at every
   * moment between its loads, and the result is the exact occupancy when no other thread enqueues
   * between them.
   */
  lemma ApproxSizeMeaning<T>(states: seq<State<T>>, moves: seq<Move<T>>, i: nat, j: nat, t: ThreadId)
    requires IsRun(states, moves) && SizeCall(states, moves, i, j, t)
    ensures At(states[j + 1], t).SizeDone?
    ensures var r := At(states[j + 1], t).result;
      && states[i].enqueuePos - states[i].dequeuePos <= r <= states[i].size
      && (r == 0 ==> forall m | i <= m <= j :: states[m].enqueuePos == states[m].dequeuePos)
      && (states[j].enqueuePos == states[i].enqueuePos ==> r == states[i].enqueuePos - states[i].dequeuePos)
  {
    SizeCallRemembers(states, moves, i, j, t, j);
    assert StepAt(states, moves, j);
    RunKeepsInv(states, moves, i);
    RunExtends(states, moves, i, j);
    if At(states[j + 1], t).result == 0 {
      forall m | i <= m <= j ensures states[m].enqueuePos == states[m].dequeuePos {
        RunKeepsInv(states, moves, m);
        RunExtends(states, moves, i, m);
        RunExtends(states, moves, m, j);
      }
    }
  }
}
