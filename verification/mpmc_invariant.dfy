/** Every step of every thread keeps the queue's invariant. */
module MpmcInvariant {
  import opened Options
  import opened MpmcQueue

  lemma InitEstablishesInv<T>(s: State<T>)
    requires IsInit(s)
    ensures Inv(s)
  {
  }

  ghost predicate Owns<T>(pc: Pc<T>) {
    pc.EnqMove? || pc.EnqPublish? || pc.DeqMove? || pc.DeqRelease?
  }

  /** Cells and tickets untouched: only the moving thread has something to show. */
  lemma LocalStep<T>(s: State<T>, t: ThreadId, pc: Pc<T>)
    requires Inv(s) && !Owns(At(s, t)) && !Owns(pc)
    requires ThreadOk(Go(s, t, pc), t)
    ensures Inv(Go(s, t, pc))
  {
    var s' := Go(s, t, pc);
    forall k | 0 <= k < s'.enqueuePos ensures TicketOk(s', k) {
      LocalKeepsTicket(s, t, pc, k);
    }
    forall u: ThreadId ensures ThreadOk(s', u) {
      if u != t {
        ThreadFrame(s, s', u);
      }
    }
  }

  lemma LocalKeepsTicket<T>(s: State<T>, t: ThreadId, pc: Pc<T>, k: nat)
    requires Inv(s) && !Owns(At(s, t)) && !Owns(pc) && k < s.enqueuePos
    ensures TicketOk(Go(s, t, pc), k)
  {
    assert TicketOk(s, k);
  }

  ghost predicate HoldsTicket<T>(pc: Pc<T>) {
    Owns(pc) || pc.EnqTrue? || pc.DeqTrue?
  }

  /** Ticket `k` is still there, and in the same phase where that matters. */
  ghost predicate Kept<T>(s: State<T>, s': State<T>, k: nat, phaseToo: bool) {
    k < |s.tickets| ==>
      && k < |s'.tickets| && s'.tickets[k].item == s.tickets[k].item
      && s'.tickets[k].producer == s.tickets[k].producer
      && (phaseToo ==> s'.tickets[k].phase == s.tickets[k].phase)
  }

  /** A thread that does not move needs its ticket kept and its cell's sequence number not lowered. */
  lemma ThreadFrame<T>(s: State<T>, s': State<T>, u: ThreadId)
    requires Shaped(s) && Shaped(s') && ThreadOk(s, u) && At(s', u) == At(s, u)
    requires s'.enqueuePos >= s.enqueuePos && s'.dequeuePos >= s.dequeuePos
    requires At(s, u).EnqCas? || At(s, u).DeqCas? ==> Sequence(s', At(s, u).pos) >= Sequence(s, At(s, u).pos)
    requires HoldsTicket(At(s, u)) ==> Kept(s, s', At(s, u).pos, !At(s, u).EnqTrue?)
    ensures ThreadOk(s', u)
  {
  }

  /** A producer that can win finds its cell released by the ticket one lap behind. */
  lemma ClaimedCell<T>(s: State<T>, t: ThreadId)
    requires Inv(s) && At(s, t).EnqCas? && At(s, t).pos == s.enqueuePos
    ensures Sequence(s, s.enqueuePos) == s.enqueuePos < s.dequeuePos + s.size
  {
    var pos := s.enqueuePos;
    assert ThreadOk(s, t);
    if pos >= s.size {
      var back := pos - s.size;
      assert TicketOk(s, back);
      SlotOfNextLap(s, back);
    } else {
      SlotOfFirstLap(s, pos);
    }
  }

  /** A winning producer keeps every ticket and adds its own. */
  lemma ClaimStep<T>(s: State<T>, t: ThreadId, s': State<T>)
    requires Inv(s) && At(s, t).EnqCas? && Next(s, t, Step) == Some(s')
    ensures Inv(s')
  {
    ClaimedCell(s, t);
    forall k | 0 <= k < s'.enqueuePos ensures TicketOk(s', k) {
      if k < s.enqueuePos {
        ClaimKeepsTicket(s, t, s', k);
      }
    }
    forall u: ThreadId ensures ThreadOk(s', u) {
      if u != t {
        ThreadFrame(s, s', u);
      }
    }
  }

  lemma ClaimKeepsTicket<T>(s: State<T>, t: ThreadId, s': State<T>, k: nat)
    requires Inv(s) && At(s, t).EnqCas? && Next(s, t, Step) == Some(s') && k < s.enqueuePos
    requires Sequence(s, s.enqueuePos) == s.enqueuePos < s.dequeuePos + s.size
    ensures TicketOk(s', k)
  {
    assert TicketOk(s, k);
    if k + s.size == s.enqueuePos {
      SlotOfNextLap(s, k);
    }
  }

  /** Another ticket in the window keeps its cell when ticket `pos` changes its own. */
  lemma OtherCell<T>(s: State<T>, pos: nat, k: nat)
    requires Shaped(s) && pos != k && pos < k + s.size && k < pos + s.size
    ensures Slot(s, k) != Slot(s, pos)
  {
    if k < pos {
      SlotsDistinct(s, k, pos);
    } else {
      SlotsDistinct(s, pos, k);
    }
  }

  /** Thread `t` owns ticket `pos` and replaces its program counter, the cell and the phase. */
  function Owner<T>(s: State<T>, t: ThreadId, pos: nat, pc: Pc<T>, cell: Cell<T>, phase: Phase<T>): State<T>
    requires Shaped(s) && pos < |s.tickets|
  {
    SetPhase(SetCell(Go(s, t, pc), pos, cell), pos, phase)
  }

  ghost predicate OnlyOwned<T>(s: State<T>, t: ThreadId, pos: nat, s': State<T>)
    requires Shaped(s) && pos < |s.tickets|
  {
    && |s'.cells| == |s.cells| && |s'.tickets| == |s.tickets|
    && s' == Owner(s, t, pos, At(s', t), s'.cells[Slot(s, pos)], s'.tickets[pos].phase)
  }

  lemma OwnerKeepsTicket<T>(s: State<T>, t: ThreadId, pos: nat, s': State<T>, k: nat)
    requires Inv(s) && pos < s.enqueuePos && k < s.enqueuePos && k != pos
    requires Owns(At(s, t)) && At(s, t).pos == pos
    requires OnlyOwned(s, t, pos, s')
    ensures TicketOk(s', k)
  {
    assert ThreadOk(s, t) && TicketOk(s, pos);
    if s.enqueuePos <= k + s.size {
      OtherCell(s, pos, k);
    }
    TicketFrame(s, t, s', k);
  }

  /** A ticket that neither changes nor belongs to the moving thread needs its cell kept in the window. */
  lemma TicketFrame<T>(s: State<T>, t: ThreadId, s': State<T>, k: nat)
    requires Shaped(s) && Shaped(s') && k < |s.tickets| && k < |s'.tickets| && TicketOk(s, k)
    requires s'.enqueuePos == s.enqueuePos && s'.dequeuePos == s.dequeuePos && s'.size == s.size
    requires s'.tickets[k] == s.tickets[k] && Owns(At(s, t)) && At(s, t).pos != k
    requires forall u: ThreadId | u != t :: At(s', u) == At(s, u)
    requires s.enqueuePos <= k + s.size ==> s'.cells[Slot(s, k)] == s.cells[Slot(s, k)]
    ensures TicketOk(s', k)
  {
  }

  lemma OwnerKeepsThread<T>(s: State<T>, t: ThreadId, pos: nat, s': State<T>, u: ThreadId)
    requires Inv(s) && pos < s.enqueuePos && u != t
    requires Owns(At(s, t)) && At(s, t).pos == pos
    requires OnlyOwned(s, t, pos, s')
    requires Sequence(s', pos) >= Sequence(s, pos)
    ensures ThreadOk(s', u)
  {
    var pc := At(s, u);
    assert ThreadOk(s, u);
    if pc.EnqCas? || pc.DeqCas? {
      SequenceNotLowered(s, t, pos, s', pc.pos);
    } else if HoldsTicket(pc) {
      OwnerKeepsHeld(s, t, pos, s', u);
    }
    ThreadFrame(s, s', u);
  }

  lemma SequenceNotLowered<T>(s: State<T>, t: ThreadId, pos: nat, s': State<T>, q: nat)
    requires Shaped(s) && pos < |s.tickets| && OnlyOwned(s, t, pos, s')
    requires Sequence(s', pos) >= Sequence(s, pos)
    ensures Sequence(s', q) >= Sequence(s, q)
  {
  }

  /** No other thread holds the ticket in the phase its owner moves it from. */
  lemma OwnerKeepsHeld<T>(s: State<T>, t: ThreadId, pos: nat, s': State<T>, u: ThreadId)
    requires Inv(s) && pos < s.enqueuePos && u != t
    requires Owns(At(s, t)) && At(s, t).pos == pos && HoldsTicket(At(s, u))
    requires OnlyOwned(s, t, pos, s')
    ensures Kept(s, s', At(s, u).pos, !At(s, u).EnqTrue?)
  {
    assert ThreadOk(s, t) && ThreadOk(s, u);
  }

  lemma OwnerKeepsTail<T>(s: State<T>, pos: nat, i: nat)
    requires Inv(s) && pos < s.enqueuePos <= i < s.size
    ensures Slot(s, pos) != i
  {
    SlotOfFirstLap(s, pos);
  }

  /** The owner of a ticket moves it on without breaking anything that belongs to others. */
  lemma OwnerStep<T>(s: State<T>, t: ThreadId, pos: nat, s': State<T>)
    requires Inv(s) && pos < s.enqueuePos && Owns(At(s, t)) && At(s, t).pos == pos
    requires OnlyOwned(s, t, pos, s')
    requires Sequence(s', pos) >= Sequence(s, pos)
    requires TicketOk(s', pos) && ThreadOk(s', t)
    ensures Inv(s')
  {
    forall k | 0 <= k < s'.enqueuePos ensures TicketOk(s', k) {
      if k != pos {
        OwnerKeepsTicket(s, t, pos, s', k);
      }
    }
    forall i | s.enqueuePos <= i < s.size ensures s'.cells[i].sequence == i {
      OwnerKeepsTail(s, pos, i);
    }
    forall u: ThreadId ensures ThreadOk(s', u) {
      if u != t {
        OwnerKeepsThread(s, t, pos, s', u);
      }
    }
  }

  lemma MoveInStep<T>(s: State<T>, t: ThreadId, s': State<T>)
    requires Inv(s) && At(s, t).EnqMove? && Next(s, t, Step) == Some(s')
    ensures Inv(s')
  {
    var pos := At(s, t).pos;
    assert ThreadOk(s, t) && TicketOk(s, pos);
    assert s'.tickets == s'.tickets[pos := s'.tickets[pos]];
    OwnerStep(s, t, pos, s');
  }

  lemma PublishStep<T>(s: State<T>, t: ThreadId, s': State<T>)
    requires Inv(s) && At(s, t).EnqPublish? && Next(s, t, Step) == Some(s')
    ensures Inv(s')
  {
    var pos := At(s, t).pos;
    assert ThreadOk(s, t) && TicketOk(s, pos);
    OwnerStep(s, t, pos, s');
  }

  lemma MoveOutStep<T>(s: State<T>, t: ThreadId, left: T, s': State<T>)
    requires Inv(s) && At(s, t).DeqMove? && Next(s, t, MoveOut(left)) == Some(s')
    ensures Inv(s')
  {
    var pos := At(s, t).pos;
    assert ThreadOk(s, t) && TicketOk(s, pos);
    assert s'.tickets == s'.tickets[pos := s'.tickets[pos]];
    OwnerStep(s, t, pos, s');
  }

  lemma ReleaseStep<T>(s: State<T>, t: ThreadId, s': State<T>)
    requires Inv(s) && At(s, t).DeqRelease? && Next(s, t, Step) == Some(s')
    ensures Inv(s')
  {
    var pos := At(s, t).pos;
    assert ThreadOk(s, t) && TicketOk(s, pos);
    OwnerStep(s, t, pos, s');
  }

  /** A consumer whose compare-and-swap can win finds its ticket published. */
  lemma WinnerIsPublished<T>(s: State<T>, t: ThreadId)
    requires Inv(s) && At(s, t).DeqCas? && s.dequeuePos == At(s, t).pos
    ensures At(s, t).pos < s.enqueuePos && s.tickets[At(s, t).pos].phase == Published
  {
    var pos := At(s, t).pos;
    assert ThreadOk(s, t);
    if pos == s.enqueuePos {
      if pos >= s.size {
        assert TicketOk(s, pos - s.size);
        SlotOfNextLap(s, pos - s.size);
      } else {
        SlotOfFirstLap(s, pos);
      }
      assert false;
    }
    assert TicketOk(s, pos);
  }

  lemma TakeStep<T>(s: State<T>, t: ThreadId, s': State<T>)
    requires Inv(s) && At(s, t).DeqCas? && Next(s, t, Step) == Some(s')
    ensures Inv(s')
  {
    WinnerIsPublished(s, t);
    forall k | 0 <= k < s'.enqueuePos ensures TicketOk(s', k) {
      TakeKeepsTicket(s, t, s', k);
    }
    forall u: ThreadId ensures ThreadOk(s', u) {
      assert ThreadOk(s, u);
      assert TicketOk(s, At(s, t).pos);
    }
  }

  lemma TakeKeepsTicket<T>(s: State<T>, t: ThreadId, s': State<T>, k: nat)
    requires Inv(s) && At(s, t).DeqCas? && Next(s, t, Step) == Some(s') && k < s.enqueuePos
    requires s.tickets[At(s, t).pos].phase == Published
    ensures TicketOk(s', k)
  {
    assert TicketOk(s, k);
  }

  /** Any step of any thread keeps the invariant. */
  lemma NextKeepsInv<T>(s: State<T>, t: ThreadId, a: Action<T>)
    requires Inv(s) && Next(s, t, a).Some?
    ensures Inv(Next(s, t, a).value)
  {
    var s' := Next(s, t, a).value;
    var pc := At(s, t);
    assert ThreadOk(s, t);
    if pc.EnqCas? && a.Step? {
      ClaimStep(s, t, s');
    } else if pc.DeqCas? && a.Step? {
      TakeStep(s, t, s');
    } else if pc.EnqMove? {
      MoveInStep(s, t, s');
    } else if pc.EnqPublish? {
      PublishStep(s, t, s');
    } else if pc.DeqMove? {
      MoveOutStep(s, t, a.left, s');
    } else if pc.DeqRelease? {
      ReleaseStep(s, t, s');
    } else {
      LocalOnly(s, t, a);
      LocalStep(s, t, At(s', t));
    }
  }

  /** Every other step moves only the thread itself, to a place where it has nothing to answer for. */
  lemma LocalOnly<T>(s: State<T>, t: ThreadId, a: Action<T>)
    requires Inv(s) && Next(s, t, a).Some? && !Owns(At(s, t))
    requires a.Step? ==> !At(s, t).EnqCas? && !At(s, t).DeqCas?
    ensures var s' := Next(s, t, a).value; var pc := At(s', t);
      s' == Go(s, t, pc) && !Owns(pc) && ThreadOk(s', t)
  {
    assert ThreadOk(s, t);
  }

  /** No thread is ever stuck: only a compare-and-swap can lack its winning step, and only when
      the position it expects has moved on. */
  lemma EveryThreadCanStep<T>(s: State<T>, t: ThreadId, left: T)
    requires Inv(s)
    ensures match At(s, t)
      case Idle => Next(s, t, BeginDequeue).Some?
      case EnqCas(_, pos) => (Next(s, t, Step).Some? <==> s.enqueuePos == pos) && Next(s, t, CasFails).Some?
      case DeqCas(pos) => (Next(s, t, Step).Some? <==> s.dequeuePos == pos) && Next(s, t, CasFails).Some?
      case DeqMove(_) => Next(s, t, MoveOut(left)).Some?
      case EnqTrue(_, _) => Next(s, t, Return).Some?
      case EnqFalse(_) => Next(s, t, Return).Some?
      case DeqTrue(_, _) => Next(s, t, Return).Some?
      case DeqFalse => Next(s, t, Return).Some?
      case SizeDone(_) => Next(s, t, Return).Some?
      case _ => Next(s, t, Step).Some?
  {
    assert ThreadOk(s, t);
    if At(s, t).DeqCas? && s.dequeuePos == At(s, t).pos {
      WinnerIsPublished(s, t);
    }
  }
}
