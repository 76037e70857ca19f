/** Every step of every client and of the worker keeps the logger's invariant. */
module AsyncInvariant {
  import opened Options
  import opened MpmcQueue
  import opened MpmcInvariant
  import opened MpmcRuns
  import opened AsyncWorker

  lemma StartEstablishesInv(c: Config, s: System)
    requires IsStart(s)
    ensures SystemInv(c, s)
  {
    InitEstablishesInv(s.q);
  }

  /** A script depends on the items alone, and those never change. */
  lemma {:induction false} ScriptStable(c: Config, a: seq<Ticket<Message>>, b: seq<Ticket<Message>>, n: nat)
    requires n <= |a| <= |b|
    requires forall k | 0 <= k < n :: a[k].item == b[k].item
    ensures Script(c, a, n) == Script(c, b, n)
  {
    if n > 0 {
      ScriptStable(c, a, b, n - 1);
      assert a[n - 1].item == b[n - 1].item;
    }
  }

  lemma OthersKept<T>(s: State<T>, t: ThreadId, a: Action<T>, s': State<T>)
    requires Shaped(s) && Next(s, t, a) == Some(s')
    ensures forall u: ThreadId | u != t :: At(s', u) == At(s, u)
  {
  }

  lemma ClientPcs(s: State<Message>, t: ThreadId, a: Action<Message>)
    requires Shaped(s) && Next(s, t, a).Some? && !a.BeginDequeue? && !IsDequeuePc(At(s, t))
    ensures var s' := Next(s, t, a).value;
      !IsDequeuePc(At(s', t)) && s'.dequeuePos == s.dequeuePos
  {
  }

  ghost predicate NoOtherConsumer(q: State<Message>) {
    forall t: ThreadId | t != WORKER :: !IsDequeuePc(At(q, t))
  }

  lemma ConsumersKept(q: State<Message>, t: ThreadId, a: Action<Message>, q': State<Message>)
    requires Shaped(q) && Next(q, t, a) == Some(q') && NoOtherConsumer(q)
    requires t == WORKER || !IsDequeuePc(At(q', t))
    ensures NoOtherConsumer(q') && (t != WORKER ==> At(q', WORKER) == At(q, WORKER))
  {
    OthersKept(q, t, a, q');
    forall u: ThreadId | u != WORKER ensures !IsDequeuePc(At(q', u)) {
      assert u != t ==> At(q', u) == At(q, u);
    }
  }

  /** The items of the old tickets, in the new queue. */
  ghost predicate SameItems(q: State<Message>, q': State<Message>) {
    |q.tickets| <= |q'.tickets| && forall k | 0 <= k < |q.tickets| :: q'.tickets[k].item == q.tickets[k].item
  }

  lemma ExtendsSameItems(q: State<Message>, q': State<Message>)
    requires Extends(q, q')
    ensures SameItems(q, q')
  {
    forall k | 0 <= k < |q.tickets| ensures q'.tickets[k].item == q.tickets[k].item {
      assert TicketExtends(q.tickets[k], q'.tickets[k]);
    }
  }

  lemma KeepsTerminate(q: State<Message>, q': State<Message>)
    requires SameItems(q, q') && TerminateSeen(q.tickets, q.dequeuePos)
    requires q.dequeuePos <= q'.dequeuePos <= |q'.tickets|
    ensures TerminateSeen(q'.tickets, q'.dequeuePos)
  {
    var k :| 0 <= k < q.dequeuePos <= |q.tickets| && q.tickets[k].item == Terminate;
    assert q'.tickets[k].item == Terminate;
  }

  /** The pc of a dequeue that has not been granted a ticket yet, or is none at all. */
  predicate HoldsNothing(pc: Pc<Message>) {
    !pc.DeqMove? && !pc.DeqRelease? && !pc.DeqTrue?
  }

  /** What a queue step must leave alone for the worker's books to survive. */
  lemma QueueFrame(c: Config, s: System, q': State<Message>)
    requires Books(c, s) && SameItems(s.q, q') && NoOtherConsumer(q')
    requires q'.dequeuePos == s.q.dequeuePos && At(q', WORKER) == At(s.q, WORKER)
    requires At(s.q, WORKER).DeqMove? ==> At(s.q, WORKER).pos < |s.q.tickets|
    ensures Books(c, s.(q := q'))
  {
    ScriptStable(c, s.q.tickets, q'.tickets, s.q.dequeuePos);
    if s.terminateRequested {
      KeepsTerminate(s.q, q');
    }
  }

  lemma MoverHoldsTicket(q: State<Message>)
    requires Inv(q) && At(q, WORKER).DeqMove?
    ensures At(q, WORKER).pos < |q.tickets|
    ensures q.tickets[At(q, WORKER).pos].item == q.cells[Slot(q, At(q, WORKER).pos)].data
  {
    assert ThreadOk(q, WORKER);
    assert TicketOk(q, At(q, WORKER).pos);
  }

  lemma ClientStep(c: Config, s: System, t: ThreadId, a: Action<Message>)
    requires SystemInv(c, s) && NextSystem(c, s, Client(t, a)).Some?
    ensures SystemInv(c, NextSystem(c, s, Client(t, a)).value)
  {
    var q' := Next(s.q, t, a).value;
    NextKeepsInv(s.q, t, a);
    NextExtends(s.q, t, a);
    ClientBooks(c, s, t, a, q');
  }

  lemma ClientBooks(c: Config, s: System, t: ThreadId, a: Action<Message>, q': State<Message>)
    requires Inv(s.q) && Books(c, s) && t != WORKER && !a.BeginDequeue? && Next(s.q, t, a) == Some(q')
    requires Extends(s.q, q')
    ensures Books(c, s.(q := q'))
  {
    if At(s.q, WORKER).DeqMove? {
      MoverHoldsTicket(s.q);
    }
    ClientFrame(c, s, t, a, q');
  }

  lemma ClientFrame(c: Config, s: System, t: ThreadId, a: Action<Message>, q': State<Message>)
    requires Shaped(s.q) && Books(c, s) && t != WORKER && !a.BeginDequeue? && Next(s.q, t, a) == Some(q')
    requires Extends(s.q, q')
    requires At(s.q, WORKER).DeqMove? ==> At(s.q, WORKER).pos < |s.q.tickets|
    ensures Books(c, s.(q := q'))
  {
    assert !IsDequeuePc(At(s.q, t));
    ClientPcs(s.q, t, a);
    ConsumersKept(s.q, t, a, q');
    ExtendsSameItems(s.q, q');
    QueueFrame(c, s, q');
  }

  lemma RetryStep(c: Config, s: System, t: ThreadId)
    requires SystemInv(c, s) && NextSystem(c, s, ClientRetry(t)).Some?
    ensures SystemInv(c, NextSystem(c, s, ClientRetry(t)).value)
  {
    var q' := NextSystem(c, s, ClientRetry(t)).value.q;
    LocalStep(s.q, t, At(q', t));
    if At(s.q, WORKER).DeqMove? {
      MoverHoldsTicket(s.q);
    }
    RetryFrame(c, s, t, q');
  }

  lemma RetryFrame(c: Config, s: System, t: ThreadId, q': State<Message>)
    requires Books(c, s) && t != WORKER && At(s.q, t).EnqFalse? && q' == Go(s.q, t, EnqLoadPos(At(s.q, t).item))
    requires At(s.q, WORKER).DeqMove? ==> At(s.q, WORKER).pos < |s.q.tickets|
    ensures Books(c, s.(q := q'))
  {
    forall u: ThreadId | u != WORKER ensures !IsDequeuePc(At(q', u)) {
      assert u != t ==> At(q', u) == At(s.q, u);
    }
    QueueFrame(c, s, q');
  }

  // ---- the worker's queue steps ---------------------------------------------------------------

  /** The worker's swap wins a ticket: its message joins the script and is owed at once. */
  lemma WorkerTakes(c: Config, s: System)
    requires SystemInv(c, s) && s.worker == Dequeuing && At(s.q, WORKER).DeqCas?
    requires Next(s.q, WORKER, Step).Some?
    ensures SystemInv(c, s.(q := Next(s.q, WORKER, Step).value))
  {
    var q' := Next(s.q, WORKER, Step).value;
    NextKeepsInv(s.q, WORKER, Step);
    NextExtends(s.q, WORKER, Step);
    ExtendsSameItems(s.q, q');
    ConsumersKept(s.q, WORKER, Step, q');
    TakesBooks(c, s, q', s.q.dequeuePos);
  }

  lemma TakesBooks(c: Config, s: System, q': State<Message>, k: nat)
    requires Books(c, s) && s.worker == Dequeuing && HoldsNothing(At(s.q, WORKER))
    requires SameItems(s.q, q') && NoOtherConsumer(q')
    requires s.q.dequeuePos == k < |q'.tickets| && q'.dequeuePos == k + 1 && At(q', WORKER) == DeqMove(k)
    ensures Books(c, s.(q := q'))
  {
    ScriptStable(c, s.q.tickets, q'.tickets, k);
    assert Script(c, q'.tickets, k + 1) == Script(c, q'.tickets, k) + MessageScript(c, k, q'.tickets[k].item);
    assert Handled(s.out) + [] == Handled(s.out);
    if s.terminateRequested {
      KeepsTerminate(s.q, q');
    }
  }

  /** A step of the dequeue that takes no ticket leaves what is owed as it was. */
  lemma WorkerOwes(c: Config, s: System, a: Action<Message>, q': State<Message>)
    requires Shaped(s.q) && Books(c, s) && s.worker == Dequeuing && Next(s.q, WORKER, a) == Some(q')
    requires !(At(s.q, WORKER).DeqCas? && a.Step?) && !a.Return?
    requires At(s.q, WORKER).DeqMove? ==>
      var k := At(s.q, WORKER).pos; k < |s.q.tickets| && s.q.tickets[k].item == s.q.cells[Slot(s.q, k)].data
    ensures IsDequeuePc(At(q', WORKER)) && q'.dequeuePos == s.q.dequeuePos && |q'.tickets| == |s.q.tickets|
    ensures Owed(c, s.(q := q')) == Owed(c, s)
    ensures !HoldsNothing(At(q', WORKER)) ==>
      !HoldsNothing(At(s.q, WORKER)) && At(q', WORKER).pos == At(s.q, WORKER).pos
  {
  }

  lemma OwesBooks(c: Config, s: System, q': State<Message>)
    requires Books(c, s) && s.worker == Dequeuing && SameItems(s.q, q') && NoOtherConsumer(q')
    requires IsDequeuePc(At(q', WORKER)) && q'.dequeuePos == s.q.dequeuePos
    requires Owed(c, s.(q := q')) == Owed(c, s)
    requires !HoldsNothing(At(q', WORKER)) ==>
      !HoldsNothing(At(s.q, WORKER)) && At(q', WORKER).pos == At(s.q, WORKER).pos
    ensures Books(c, s.(q := q'))
  {
    ScriptStable(c, s.q.tickets, q'.tickets, s.q.dequeuePos);
    if s.terminateRequested {
      KeepsTerminate(s.q, q');
    }
  }

  lemma WorkerSteps(c: Config, s: System, a: Action<Message>, q': State<Message>)
    requires SystemInv(c, s) && s.worker == Dequeuing && Next(s.q, WORKER, a) == Some(q')
    requires !(At(s.q, WORKER).DeqCas? && a.Step?) && !a.Return?
    ensures SystemInv(c, s.(q := q'))
  {
    NextKeepsInv(s.q, WORKER, a);
    NextExtends(s.q, WORKER, a);
    if At(s.q, WORKER).DeqMove? {
      MoverHoldsTicket(s.q);
    }
    WorkerOwes(c, s, a, q');
    ExtendsSameItems(s.q, q');
    ConsumersKept(s.q, WORKER, a, q');
    OwesBooks(c, s, q');
  }

  lemma WorkerQueueStep(c: Config, s: System, a: Action<Message>)
    requires SystemInv(c, s) && NextSystem(c, s, WorkerQueue(a)).Some?
    ensures SystemInv(c, NextSystem(c, s, WorkerQueue(a)).value)
  {
    if At(s.q, WORKER).DeqCas? && a.Step? {
      WorkerTakes(c, s);
    } else {
      WorkerSteps(c, s, a, Next(s.q, WORKER, a).value);
    }
  }

  // ---- the worker's own steps -----------------------------------------------------------------

  lemma HandledSnoc(out: seq<Event>, e: Event)
    ensures Handled(out + [e]) == Handled(out) + if IsFlushCall(e) then [] else [e]
    ensures FlushPending(out + [e]) <==> e.FlushWanted? || (!e.FlushDone? && FlushPending(out))
  {
    assert (out + [e])[..|out|] == out;
  }

  lemma CompleteSnoc(c: Config, out: seq<Event>, e: Event)
    requires FlushesComplete(c, out)
    requires e == FlushDone ==> EndsWith(out, Sweep(c.sinks))
    ensures FlushesComplete(c, out + [e])
  {
    var out' := out + [e];
    forall i | 0 <= i < |out'| && out'[i] == FlushDone ensures EndsWith(out'[..i], Sweep(c.sinks)) {
      assert out'[..i] == out[..i];
      if i == |out| {
        assert out[..i] == out;
      }
    }
  }

  /** The worker lays its program counter down, or picks it up. */
  lemma PcKept(q: State<Message>, pc: Pc<Message>)
    requires NoOtherConsumer(q)
    ensures NoOtherConsumer(Go(q, WORKER, pc))
  {
    forall t: ThreadId | t != WORKER ensures !IsDequeuePc(At(Go(q, WORKER, pc), t)) {
      assert At(Go(q, WORKER, pc), t) == At(q, t);
    }
  }

  lemma TakerHoldsTicket(q: State<Message>)
    requires Inv(q) && At(q, WORKER).DeqTrue?
    ensures At(q, WORKER).pos < q.dequeuePos <= |q.tickets|
    ensures q.tickets[At(q, WORKER).pos].item == At(q, WORKER).value
  {
    assert ThreadOk(q, WORKER);
    assert TicketOk(q, At(q, WORKER).pos);
  }

  /** A log message goes to the formatter. */
  lemma TakenLog(c: Config, s: System, q': State<Message>, k: nat, msg: Message)
    requires Books(c, s) && s.worker == Dequeuing && At(s.q, WORKER) == DeqTrue(k, msg) && msg.Log?
    requires k < |s.q.tickets| && s.q.tickets[k].item == msg
    requires q' == Go(s.q, WORKER, Idle) && NoOtherConsumer(q')
    ensures Books(c, s.(q := q', worker := Formatting(k, msg)))
  {
  }

  /** A flush or terminate request raises the flags. */
  lemma TakenRequest(c: Config, s: System, q': State<Message>, k: nat, msg: Message)
    requires Books(c, s) && s.worker == Dequeuing && At(s.q, WORKER) == DeqTrue(k, msg) && !msg.Log?
    requires k < |s.q.tickets| && s.q.tickets[k].item == msg
    requires q' == Go(s.q, WORKER, Idle) && NoOtherConsumer(q')
    ensures Books(c, Taken(s.(q := q'), k, msg))
  {
    HandledSnoc(s.out, FlushWanted(k));
    CompleteSnoc(c, s.out, FlushWanted(k));
    if msg == Terminate {
      assert TerminateSeen(s.q.tickets, s.q.dequeuePos);
    }
    assert Owed(c, s) == [FlushWanted(k)];
    assert Handled(s.out + [FlushWanted(k)]) + [] == Handled(s.out) + [FlushWanted(k)];
  }

  lemma TakenStep(c: Config, s: System)
    requires SystemInv(c, s) && s.worker == Dequeuing && At(s.q, WORKER).DeqTrue?
    ensures var pc := At(s.q, WORKER); SystemInv(c, Taken(s.(q := Go(s.q, WORKER, Idle)), pc.pos, pc.value))
  {
    var k, msg, q' := At(s.q, WORKER).pos, At(s.q, WORKER).value, Go(s.q, WORKER, Idle);
    LocalStep(s.q, WORKER, Idle);
    PcKept(s.q, Idle);
    TakerHoldsTicket(s.q);
    if msg.Log? {
      TakenLog(c, s, q', k, msg);
    } else {
      TakenRequest(c, s, q', k, msg);
    }
  }

  lemma EmptyBooks(c: Config, s: System, q': State<Message>, w: WorkerPc)
    requires Books(c, s) && s.worker == Dequeuing && At(s.q, WORKER).DeqFalse?
    requires q' == Go(s.q, WORKER, Idle) && NoOtherConsumer(q')
    requires w == Flushing(0) || (w == Deciding && !s.flushRequested)
    ensures Books(c, s.(q := q', worker := w))
  {
    assert EndsWith(s.out, Sweep(0));
  }

  lemma EmptyStep(c: Config, s: System, expired: bool, throws: bool)
    requires SystemInv(c, s) && s.worker == Dequeuing && At(s.q, WORKER).DeqFalse?
    ensures NextWorker(c, s, expired, throws).Some? && SystemInv(c, NextWorker(c, s, expired, throws).value)
  {
    LocalStep(s.q, WORKER, Idle);
    PcKept(s.q, Idle);
    EmptyBooks(c, s, Go(s.q, WORKER, Idle), NextWorker(c, s, expired, throws).value.worker);
  }

  lemma BeginBooks(c: Config, s: System, q': State<Message>)
    requires Books(c, s) && s.worker == LoopTop && q' == Go(s.q, WORKER, DeqLoadPos) && NoOtherConsumer(q')
    ensures Books(c, s.(q := q', worker := Dequeuing))
  {
  }

  lemma BeginStep(c: Config, s: System, expired: bool, throws: bool)
    requires SystemInv(c, s) && s.worker == LoopTop
    ensures NextWorker(c, s, expired, throws).Some? && SystemInv(c, NextWorker(c, s, expired, throws).value)
  {
    LocalStep(s.q, WORKER, DeqLoadPos);
    PcKept(s.q, DeqLoadPos);
    BeginBooks(c, s, Go(s.q, WORKER, DeqLoadPos));
  }

  /** Steps of the worker that leave the queue alone only have the transcript to answer for. */
  lemma SameQueue(c: Config, s: System, s': System)
    requires Books(c, s) && s'.q == s.q && s'.terminateRequested == s.terminateRequested
    requires s.worker != Dequeuing && s'.worker != Dequeuing
    requires HoldsNewest(s')
    requires Handled(s'.out) + Owed(c, s') == Handled(s.out) + Owed(c, s)
    requires FlushState(c, s')
    ensures Books(c, s')
  {
  }

  /** The worker makes the first of the calls it still owes. */
  lemma PayStep(c: Config, s: System, e: Event, w: WorkerPc, rest: seq<Event>)
    requires Books(c, s) && (s.worker.Formatting? || s.worker.Sinking?)
    requires w == LoopTop || (w.Sinking? && w.ticket == s.worker.ticket && w.msg == s.worker.msg)
    requires !IsFlushCall(e) && !e.FlushWanted?
    requires Owed(c, s) == [e] + rest && Owed(c, s.(out := s.out + [e], worker := w)) == rest
    ensures Books(c, s.(out := s.out + [e], worker := w))
  {
    var s' := s.(out := s.out + [e], worker := w);
    PayTranscript(c, s, e, rest);
    SameQueue(c, s, s');
  }

  lemma PayTranscript(c: Config, s: System, e: Event, rest: seq<Event>)
    requires FlushState(c, s) && !IsFlushCall(e) && !e.FlushWanted?
    requires Owed(c, s) == [e] + rest
    ensures Handled(s.out + [e]) + rest == Handled(s.out) + Owed(c, s)
    ensures FlushesComplete(c, s.out + [e])
    ensures s.flushRequested <==> FlushPending(s.out + [e])
  {
    HandledSnoc(s.out, e);
    CompleteSnoc(c, s.out, e);
    assert (Handled(s.out) + [e]) + rest == Handled(s.out) + ([e] + rest);
  }

  lemma FormatStep(c: Config, s: System, expired: bool, throws: bool)
    requires Books(c, s) && Shaped(s.q) && s.worker.Formatting?
    ensures NextWorker(c, s, expired, throws).Some? && Books(c, NextWorker(c, s, expired, throws).value)
    ensures NextWorker(c, s, expired, throws).value.q == s.q
  {
    var k, msg := s.worker.ticket, s.worker.msg;
    if c.formatThrows(k) {
      PayStep(c, s, FormatThrew(k), LoopTop, []);
    } else {
      PayStep(c, s, Formatted(k), Sinking(k, msg, 0), SinkScript(c, k, 0));
    }
  }

  lemma SinksDone(c: Config, s: System)
    requires Books(c, s) && s.worker.Sinking? && s.worker.next >= c.sinks
    ensures Books(c, s.(worker := LoopTop))
  {
    assert Owed(c, s) == [];
    SameQueue(c, s, s.(worker := LoopTop));
  }

  lemma SinkStep(c: Config, s: System, expired: bool, throws: bool)
    requires Books(c, s) && Shaped(s.q) && s.worker.Sinking?
    ensures NextWorker(c, s, expired, throws).Some? && Books(c, NextWorker(c, s, expired, throws).value)
    ensures NextWorker(c, s, expired, throws).value.q == s.q
  {
    var k, msg, j := s.worker.ticket, s.worker.msg, s.worker.next;
    var next := NextWorker(c, s, expired, throws);
    if j >= c.sinks {
      assert next == Some(s.(worker := LoopTop));
      SinksDone(c, s);
    } else if !c.shouldLog(k, j) {
      assert next == Some(s.(out := s.out + [SinkSkipped(k, j)], worker := Sinking(k, msg, j + 1)));
      PayStep(c, s, SinkSkipped(k, j), Sinking(k, msg, j + 1), SinkScript(c, k, j + 1));
    } else if c.sinkThrows(k, j) {
      assert next == Some(s.(out := s.out + [SinkThrew(k, j)], worker := LoopTop));
      PayStep(c, s, SinkThrew(k, j), LoopTop, []);
    } else {
      assert next == Some(s.(out := s.out + [SinkLogged(k, j)], worker := Sinking(k, msg, j + 1)));
      PayStep(c, s, SinkLogged(k, j), Sinking(k, msg, j + 1), SinkScript(c, k, j + 1));
    }
  }

  /** A flushing call is no part of any message's script. */
  lemma FlushCallTranscript(c: Config, out: seq<Event>, e: Event, done: bool)
    requires FlushesComplete(c, out) && IsFlushCall(e) && (e == FlushDone <==> done)
    requires done ==> EndsWith(out, Sweep(c.sinks))
    ensures Handled(out + [e]) == Handled(out)
    ensures FlushesComplete(c, out + [e])
    ensures FlushPending(out + [e]) <==> !done && FlushPending(out)
    ensures done ==> EndsWith(out + [e], Sweep(c.sinks) + [FlushDone])
  {
    HandledSnoc(out, e);
    CompleteSnoc(c, out, e);
    assert Handled(out) + [] == Handled(out);
    if done {
      EndsWithSnoc(out, Sweep(c.sinks), e);
    }
  }

  /** The worker makes a flushing call, of which `s'` is the outcome. */
  lemma FlushCallStep(c: Config, s: System, e: Event, w: WorkerPc, s': System)
    requires Books(c, s) && s.worker.Flushing?
    requires w == LoopTop || w.Flushing? || w == Deciding
    requires IsFlushCall(e) && (e == FlushDone <==> w == Deciding)
    requires w.Flushing? ==> w.next <= c.sinks && EndsWith(s.out + [e], Sweep(w.next))
    requires w == Deciding ==> EndsWith(s.out, Sweep(c.sinks))
    requires s' == s.(out := s.out + [e], worker := w, flushRequested := s.flushRequested && w != Deciding)
    ensures Books(c, s')
  {
    FlushCallTranscript(c, s.out, e, w == Deciding);
    SameQueue(c, s, s');
  }

  lemma SweepOneMore(out: seq<Event>, j: nat)
    requires EndsWith(out, Sweep(j))
    ensures EndsWith(out + [SinkFlushed(j)], Sweep(j + 1))
  {
    EndsWithSnoc(out, Sweep(j), SinkFlushed(j));
    assert Sweep(j) + [SinkFlushed(j)] == Sweep(j + 1);
  }

  lemma SweepEnds(c: Config, s: System)
    requires Books(c, s) && s.worker.Flushing? && s.worker.next >= c.sinks
    ensures Books(c, s.(out := s.out + [FlushDone], flushRequested := false, worker := Deciding))
  {
    FlushCallStep(c, s, FlushDone, Deciding, s.(out := s.out + [FlushDone], flushRequested := false, worker := Deciding));
  }

  lemma SweepFails(c: Config, s: System, j: nat)
    requires Books(c, s) && s.worker == Flushing(j)
    ensures Books(c, s.(out := s.out + [FlushThrew(j)], worker := LoopTop))
  {
    FlushCallStep(c, s, FlushThrew(j), LoopTop, s.(out := s.out + [FlushThrew(j)], worker := LoopTop));
  }

  lemma SweepGoesOn(c: Config, s: System, j: nat)
    requires Books(c, s) && s.worker == Flushing(j) && j < c.sinks
    ensures Books(c, s.(out := s.out + [SinkFlushed(j)], worker := Flushing(j + 1)))
  {
    SweepOneMore(s.out, j);
    FlushCallStep(c, s, SinkFlushed(j), Flushing(j + 1), s.(out := s.out + [SinkFlushed(j)], worker := Flushing(j + 1)));
  }

  lemma FlushStep(c: Config, s: System, expired: bool, throws: bool)
    requires Books(c, s) && Shaped(s.q) && s.worker.Flushing?
    ensures NextWorker(c, s, expired, throws).Some? && Books(c, NextWorker(c, s, expired, throws).value)
    ensures NextWorker(c, s, expired, throws).value.q == s.q
  {
    var j, next := s.worker.next, NextWorker(c, s, expired, throws);
    if j >= c.sinks {
      assert next == Some(s.(out := s.out + [FlushDone], flushRequested := false, worker := Deciding));
      SweepEnds(c, s);
    } else if throws {
      assert next == Some(s.(out := s.out + [FlushThrew(j)], worker := LoopTop));
      SweepFails(c, s, j);
    } else {
      assert next == Some(s.(out := s.out + [SinkFlushed(j)], worker := Flushing(j + 1)));
      SweepGoesOn(c, s, j);
    }
  }

  lemma EndsWithSnoc(out: seq<Event>, tail: seq<Event>, e: Event)
    requires EndsWith(out, tail)
    ensures EndsWith(out + [e], tail + [e])
  {
  }

  /** The worker decides whether to go on. */
  lemma DecideStep(c: Config, s: System, w: WorkerPc)
    requires Books(c, s) && s.worker.Deciding? && w == (if s.terminateRequested then Exited else LoopTop)
    ensures Books(c, s.(worker := w))
  {
    SameQueue(c, s, s.(worker := w));
  }

  lemma WorkerStep(c: Config, s: System, expired: bool, throws: bool)
    requires SystemInv(c, s) && NextWorker(c, s, expired, throws).Some?
    ensures SystemInv(c, NextWorker(c, s, expired, throws).value)
  {
    match s.worker
    case LoopTop => BeginStep(c, s, expired, throws);
    case Dequeuing =>
      if At(s.q, WORKER).DeqTrue? {
        TakenStep(c, s);
      } else {
        EmptyStep(c, s, expired, throws);
      }
    case Formatting(_, _) => FormatStep(c, s, expired, throws);
    case Sinking(_, _, _) => SinkStep(c, s, expired, throws);
    case Flushing(_) => FlushStep(c, s, expired, throws);
    case Deciding => DecideStep(c, s, if s.terminateRequested then Exited else LoopTop);
    case Exited =>
  }

  /** Any step of any client or of the worker keeps the invariant. */
  lemma SystemStepKeepsInv(c: Config, s: System, m: Turn)
    requires SystemInv(c, s) && NextSystem(c, s, m).Some?
    ensures SystemInv(c, NextSystem(c, s, m).value)
  {
    match m
    case Client(t, a) => ClientStep(c, s, t, a);
    case ClientRetry(t) => RetryStep(c, s, t);
    case WorkerQueue(a) => WorkerQueueStep(c, s, a);
    case Worker(expired, throws) => WorkerStep(c, s, expired, throws);
  }
}
