/** What the worker does when it is left alone: it flushes, it empties the queue, and it ends. */
module WorkerRuns {
  import opened Options
  import opened MpmcQueue
  import opened MpmcRuns
  import opened AsyncWorker
  import opened AsyncInvariant
  import opened AsyncRuns

  lemma PlayOne(c: Config, s: System, m: Turn, s': System)
    requires Shaped(s.q) && NextSystem(c, s, m) == Some(s')
    ensures Play(c, s, [m]) == Some(s')
  {
    assert [m][1..] == [];
    assert Play(c, s', []) == Some(s');
  }

  lemma PlayJoin(c: Config, s: System, a: seq<Turn>, middle: System, b: seq<Turn>, end: System)
    requires Play(c, s, a) == Some(middle) && Play(c, middle, b) == Some(end)
    ensures Play(c, s, a + b) == Some(end)
  {
    PlayAppend(c, s, a, b);
  }

  lemma PlayThen(c: Config, s: System, a: seq<Turn>, middle: System, m: Turn, end: System)
    requires Play(c, s, a) == Some(middle) && Shaped(middle.q) && NextSystem(c, middle, m) == Some(end)
    ensures Play(c, s, a + [m]) == Some(end)
  {
    PlayOne(c, middle, m, end);
    PlayJoin(c, s, a, middle, [m], end);
  }

  /** The worker is left alone. */
  predicate OnlyWorker(turns: seq<Turn>) {
    forall i | 0 <= i < |turns| :: turns[i].Worker? || turns[i].WorkerQueue?
  }

  /** The worker's turns, nothing throwing. */
  function Undisturbed(n: nat): (turns: seq<Turn>)
    ensures |turns| == n && forall i | 0 <= i < n :: turns[i] == Worker(false, false)
  {
    seq(n, _ => Worker(false, false))
  }

  // ---- flushing ------------------------------------------------------------------------------------

  /** The calls that complete a sweep from sink `j` on. */
  function SweepFrom(j: nat, sinks: nat): seq<Event>
    decreases sinks - j
  {
    if j >= sinks then [FlushDone] else [SinkFlushed(j)] + SweepFrom(j + 1, sinks)
  }

  lemma {:induction false} SweepFromIs(j: nat, sinks: nat)
    requires j <= sinks
    ensures Sweep(j) + SweepFrom(j, sinks) == Sweep(sinks) + [FlushDone]
    decreases sinks - j
  {
    if j < sinks {
      SweepFromIs(j + 1, sinks);
      assert Sweep(j) + [SinkFlushed(j)] == Sweep(j + 1);
      assert Sweep(j) + ([SinkFlushed(j)] + SweepFrom(j + 1, sinks)) == Sweep(j + 1) + SweepFrom(j + 1, sinks);
    }
  }

  lemma {:induction false} SweepRuns(c: Config, s: System, j: nat)
    requires Shaped(s.q) && s.worker == Flushing(j) && j <= c.sinks
    ensures Play(c, s, Undisturbed(c.sinks - j + 1))
         == Some(s.(out := s.out + SweepFrom(j, c.sinks), flushRequested := false, worker := Deciding))
    decreases c.sinks - j
  {
    var turns := Undisturbed(c.sinks - j + 1);
    if j == c.sinks {
      assert turns == [Worker(false, false)];
      PlayOne(c, s, Worker(false, false), s.(out := s.out + [FlushDone], flushRequested := false, worker := Deciding));
    } else {
      var s1 := s.(out := s.out + [SinkFlushed(j)], worker := Flushing(j + 1));
      PlayOne(c, s, Worker(false, false), s1);
      SweepRuns(c, s1, j + 1);
      assert turns == [Worker(false, false)] + Undisturbed(c.sinks - j);
      assert s.out + [SinkFlushed(j)] + SweepFrom(j + 1, c.sinks) == s.out + SweepFrom(j, c.sinks);
      PlayJoin(c, s, [Worker(false, false)], s1, Undisturbed(c.sinks - j),
               s.(out := s.out + SweepFrom(j, c.sinks), flushRequested := false, worker := Deciding));
    }
  }

  /**
   * A worker that finds the queue empty flushes every sink in turn, once, if a flush has been asked for
   * or the flush interval has passed, and then asks for nothing more; otherwise it flushes nothing.
   */
  lemma EmptyQueueFlushes(c: Config, s: System, expired: bool) returns (end: System)
    requires Shaped(s.q) && s.worker == Dequeuing && At(s.q, WORKER) == DeqFalse
    ensures s.flushRequested || (c.hasFlushInterval && expired) ==>
      && Play(c, s, [Worker(expired, false)] + Undisturbed(c.sinks + 1)) == Some(end)
      && end.out == s.out + Sweep(c.sinks) + [FlushDone] && !end.flushRequested
    ensures !s.flushRequested && !(c.hasFlushInterval && expired) ==>
      && Play(c, s, [Worker(expired, false)]) == Some(end)
      && end.out == s.out && !end.flushRequested
    ensures end.worker == Deciding && end.terminateRequested == s.terminateRequested
    ensures end.q == Go(s.q, WORKER, Idle)
  {
    var idle := s.(q := Go(s.q, WORKER, Idle));
    if s.flushRequested || (c.hasFlushInterval && expired) {
      end := s.(q := idle.q, out := s.out + SweepFrom(0, c.sinks), flushRequested := false, worker := Deciding);
      PlayOne(c, s, Worker(expired, false), idle.(worker := Flushing(0)));
      SweepRuns(c, idle.(worker := Flushing(0)), 0);
      PlayJoin(c, s, [Worker(expired, false)], idle.(worker := Flushing(0)), Undisturbed(c.sinks + 1), end);
      SweepFromIs(0, c.sinks);
      assert Sweep(0) + SweepFrom(0, c.sinks) == SweepFrom(0, c.sinks);
      assert s.out + SweepFrom(0, c.sinks) == s.out + Sweep(c.sinks) + [FlushDone];
    } else {
      end := idle.(worker := Deciding);
      PlayOne(c, s, Worker(expired, false), end);
    }
  }

  /** After that it ends if it has been told to, and goes on if not. */
  lemma DecidesToEnd(c: Config, s: System)
    requires Shaped(s.q) && s.worker == Deciding
    ensures Play(c, s, [Worker(false, false)]) == Some(s.(worker := if s.terminateRequested then Exited else LoopTop))
  {
    PlayOne(c, s, Worker(false, false), s.(worker := if s.terminateRequested then Exited else LoopTop));
  }

  // ---- one message ---------------------------------------------------------------------------------

  /** How many turns the sinks take, from sink `j` on. */
  function SinkTurns(c: Config, k: nat, j: nat): nat
    decreases c.sinks - j
  {
    if j >= c.sinks || (c.shouldLog(k, j) && c.sinkThrows(k, j)) then 1 else 1 + SinkTurns(c, k, j + 1)
  }

  lemma {:induction false} SinksRun(c: Config, s: System, k: nat, msg: Message, j: nat)
    requires Shaped(s.q) && s.worker == Sinking(k, msg, j)
    ensures Play(c, s, Undisturbed(SinkTurns(c, k, j))) == Some(s.(out := s.out + SinkScript(c, k, j), worker := LoopTop))
    decreases c.sinks - j
  {
    if j >= c.sinks {
      assert Undisturbed(1) == [Worker(false, false)] && s.out + [] == s.out;
      PlayOne(c, s, Worker(false, false), s.(worker := LoopTop));
    } else if c.shouldLog(k, j) && c.sinkThrows(k, j) {
      assert Undisturbed(1) == [Worker(false, false)];
      PlayOne(c, s, Worker(false, false), s.(out := s.out + [SinkThrew(k, j)], worker := LoopTop));
    } else {
      var e := if c.shouldLog(k, j) then SinkLogged(k, j) else SinkSkipped(k, j);
      var s1, n := s.(out := s.out + [e], worker := Sinking(k, msg, j + 1)), SinkTurns(c, k, j + 1);
      PlayOne(c, s, Worker(false, false), s1);
      SinksRun(c, s1, k, msg, j + 1);
      assert Undisturbed(n + 1) == [Worker(false, false)] + Undisturbed(n);
      assert s.out + [e] + SinkScript(c, k, j + 1) == s.out + SinkScript(c, k, j);
      PlayJoin(c, s, [Worker(false, false)], s1, Undisturbed(n), s.(out := s.out + SinkScript(c, k, j), worker := LoopTop));
    }
  }

  lemma MessageRuns(c: Config, s: System, k: nat, msg: Message) returns (turns: seq<Turn>)
    requires Shaped(s.q) && s.worker == Formatting(k, msg) && msg.Log?
    ensures OnlyWorker(turns)
    ensures Play(c, s, turns) == Some(s.(out := s.out + MessageScript(c, k, msg), worker := LoopTop))
  {
    if c.formatThrows(k) {
      turns := [Worker(false, false)];
      PlayOne(c, s, Worker(false, false), s.(out := s.out + [FormatThrew(k)], worker := LoopTop));
    } else {
      var s1 := s.(out := s.out + [Formatted(k)], worker := Sinking(k, msg, 0));
      PlayOne(c, s, Worker(false, false), s1);
      SinksRun(c, s1, k, msg, 0);
      turns := [Worker(false, false)] + Undisturbed(SinkTurns(c, k, 0));
      assert s.out + [Formatted(k)] + SinkScript(c, k, 0) == s.out + MessageScript(c, k, msg);
      PlayJoin(c, s, [Worker(false, false)], s1, Undisturbed(SinkTurns(c, k, 0)),
               s.(out := s.out + MessageScript(c, k, msg), worker := LoopTop));
    }
  }

  /** Once a message has been taken off the queue, its turn runs to the end. */
  lemma TakenRuns(c: Config, s: System, k: nat, msg: Message) returns (turns: seq<Turn>, end: System)
    requires Shaped(s.q) && s.worker == Dequeuing && At(s.q, WORKER) == DeqTrue(k, msg)
    ensures OnlyWorker(turns)
    ensures Play(c, s, turns) == Some(end)
    ensures end.worker == LoopTop && end.q == Go(s.q, WORKER, Idle) && end.out == s.out + MessageScript(c, k, msg)
    ensures end.flushRequested == (s.flushRequested || !msg.Log?)
    ensures end.terminateRequested == (s.terminateRequested || msg == Terminate)
  {
    var idle := s.(q := Go(s.q, WORKER, Idle));
    var s1 := Taken(idle, k, msg);
    PlayOne(c, s, Worker(false, false), s1);
    turns, end := [Worker(false, false)], s1;
    if msg.Log? {
      var more := MessageRuns(c, s1, k, msg);
      end := s1.(out := s1.out + MessageScript(c, k, msg), worker := LoopTop);
      PlayJoin(c, s, turns, s1, more, end);
      turns := turns + more;
    }
  }

  // ---- the queue -----------------------------------------------------------------------------------

  /** A step of the worker inside its dequeue. */
  lemma QueueTurn(c: Config, s: System, turns: seq<Turn>, middle: System, a: Action<Message>, q': State<Message>)
    returns (end: System)
    requires Play(c, s, turns) == Some(middle) && SystemInv(c, middle) && middle.worker == Dequeuing && !a.Return?
    requires Next(middle.q, WORKER, a) == Some(q')
    ensures end == middle.(q := q') && Play(c, s, turns + [WorkerQueue(a)]) == Some(end) && SystemInv(c, end)
  {
    end := middle.(q := q');
    SystemStepKeepsInv(c, middle, WorkerQueue(a));
    PlayThen(c, s, turns, middle, WorkerQueue(a), end);
  }

  /** The worker has begun a dequeue and read the position and the cell's sequence number. */
  lemma Looks(c: Config, s: System) returns (turns: seq<Turn>, end: System)
    requires SystemInv(c, s) && s.worker == LoopTop
    ensures OnlyWorker(turns)
    ensures Play(c, s, turns) == Some(end) && SystemInv(c, end)
    ensures end == s.(q := Go(s.q, WORKER, DeqLoadSeq(s.q.dequeuePos)), worker := Dequeuing)
  {
    var s1 := s.(q := Go(s.q, WORKER, DeqLoadPos), worker := Dequeuing);
    SystemStepKeepsInv(c, s, Worker(false, false));
    PlayOne(c, s, Worker(false, false), s1);
    turns := [Worker(false, false)];
    end := QueueTurn(c, s, turns, s1, Step, Go(s1.q, WORKER, DeqLoadSeq(s.q.dequeuePos)));
    turns := turns + [WorkerQueue(Step)];
  }

  ghost predicate Waiting(q: State<Message>) {
    q.dequeuePos < |q.tickets| && q.tickets[q.dequeuePos].phase == Published
  }

  /** Only ticket `k` may have changed its phase. */
  ghost predicate OthersWait(q: State<Message>, q': State<Message>, k: nat) {
    && q'.enqueuePos == q.enqueuePos && |q'.tickets| == |q.tickets|
    && (forall j | 0 <= j < |q.tickets| && j != k :: q'.tickets[j] == q.tickets[j])
    && (k < |q.tickets| ==> q'.tickets[k].item == q.tickets[k].item)
  }

  lemma SeesPublished(q: State<Message>, k: nat)
    requires Inv(q) && At(q, WORKER) == DeqLoadSeq(k) && k == q.dequeuePos && Waiting(q)
    ensures Next(q, WORKER, Step) == Some(Go(q, WORKER, DeqCas(k)))
  {
    assert TicketOk(q, k);
  }

  lemma Wins(q: State<Message>, k: nat)
    requires Shaped(q) && At(q, WORKER) == DeqCas(k) && k == q.dequeuePos < |q.tickets|
    ensures Next(q, WORKER, Step).Some?
    ensures var q' := Next(q, WORKER, Step).value;
      At(q', WORKER) == DeqMove(k) && q'.dequeuePos == k + 1 && OthersWait(q, q', k)
  {
  }

  lemma Moves(q: State<Message>, k: nat)
    requires Inv(q) && At(q, WORKER) == DeqMove(k)
    ensures Next(q, WORKER, MoveOut(Flush)).Some? && k < |q.tickets|
    ensures var q' := Next(q, WORKER, MoveOut(Flush)).value;
      At(q', WORKER) == DeqRelease(k, q.tickets[k].item) && q'.dequeuePos == q.dequeuePos && OthersWait(q, q', k)
  {
    assert ThreadOk(q, WORKER);
    assert TicketOk(q, k);
  }

  lemma Releases(q: State<Message>, k: nat, msg: Message)
    requires Inv(q) && At(q, WORKER) == DeqRelease(k, msg)
    ensures Next(q, WORKER, Step).Some?
    ensures var q' := Next(q, WORKER, Step).value;
      At(q', WORKER) == DeqTrue(k, msg) && q'.dequeuePos == q.dequeuePos && OthersWait(q, q', k)
  {
    assert ThreadOk(q, WORKER);
  }

  lemma OthersWaitTwice(q: State<Message>, q1: State<Message>, q2: State<Message>, k: nat)
    requires OthersWait(q, q1, k) && OthersWait(q1, q2, k)
    ensures OthersWait(q, q2, k)
  {
  }

  /** What stays of the worker's side while it is inside its dequeue. */
  ghost predicate SameBooks(s: System, end: System) {
    end.out == s.out && end.flushRequested == s.flushRequested && end.terminateRequested == s.terminateRequested
  }

  lemma Claims(c: Config, s: System) returns (turns: seq<Turn>, end: System)
    requires SystemInv(c, s) && s.worker == LoopTop && Waiting(s.q)
    ensures OnlyWorker(turns)
    ensures Play(c, s, turns) == Some(end) && SystemInv(c, end) && end.worker == Dequeuing && SameBooks(s, end)
    ensures At(end.q, WORKER) == DeqMove(s.q.dequeuePos) && end.q.dequeuePos == s.q.dequeuePos + 1
    ensures OthersWait(s.q, end.q, s.q.dequeuePos)
  {
    var k := s.q.dequeuePos;
    turns, end := Looks(c, s);
    SeesPublished(end.q, k);
    end := QueueTurn(c, s, turns, end, Step, Go(end.q, WORKER, DeqCas(k)));
    turns := turns + [WorkerQueue(Step)];
    Wins(end.q, k);
    end := QueueTurn(c, s, turns, end, Step, Next(end.q, WORKER, Step).value);
    turns := turns + [WorkerQueue(Step)];
  }

  lemma Takes(c: Config, s: System) returns (turns: seq<Turn>, end: System)
    requires SystemInv(c, s) && s.worker == LoopTop && Waiting(s.q)
    ensures OnlyWorker(turns)
    ensures Play(c, s, turns) == Some(end) && SystemInv(c, end) && end.worker == Dequeuing && SameBooks(s, end)
    ensures At(end.q, WORKER) == DeqTrue(s.q.dequeuePos, s.q.tickets[s.q.dequeuePos].item)
    ensures end.q.dequeuePos == s.q.dequeuePos + 1 && OthersWait(s.q, end.q, s.q.dequeuePos)
  {
    var k := s.q.dequeuePos;
    turns, end := Claims(c, s);
    var q1 := end.q;
    Moves(q1, k);
    end := QueueTurn(c, s, turns, end, MoveOut(Flush), Next(q1, WORKER, MoveOut(Flush)).value);
    turns := turns + [WorkerQueue(MoveOut(Flush))];
    var q2 := end.q;
    Releases(q2, k, s.q.tickets[k].item);
    end := QueueTurn(c, s, turns, end, Step, Next(q2, WORKER, Step).value);
    turns := turns + [WorkerQueue(Step)];
    OthersWaitTwice(s.q, q1, q2, k);
    OthersWaitTwice(s.q, q2, end.q, k);
  }

  lemma {:induction false} PlayReaches(c: Config, s: System, turns: seq<Turn>, end: System)
    requires SystemInv(c, s) && Play(c, s, turns) == Some(end)
    ensures SystemInv(c, end)
  {
    PlayKeepsInv(c, s, turns);
  }

  /** A worker at the top of its loop takes a waiting message and deals with it, whoever throws. */
  lemma HandlesOne(c: Config, s: System) returns (turns: seq<Turn>, end: System)
    requires SystemInv(c, s) && s.worker == LoopTop && Waiting(s.q)
    ensures OnlyWorker(turns)
    ensures Play(c, s, turns) == Some(end) && SystemInv(c, end) && end.worker == LoopTop
    ensures end.q.dequeuePos == s.q.dequeuePos + 1 && OthersWait(s.q, end.q, s.q.dequeuePos)
    ensures end.out == s.out + MessageScript(c, s.q.dequeuePos, s.q.tickets[s.q.dequeuePos].item)
    ensures end.terminateRequested == (s.terminateRequested || s.q.tickets[s.q.dequeuePos].item == Terminate)
  {
    var k := s.q.dequeuePos;
    var more, middle;
    turns, middle := Takes(c, s);
    more, end := TakenRuns(c, middle, k, s.q.tickets[k].item);
    PlayJoin(c, s, turns, middle, more, end);
    turns := turns + more;
    PlayReaches(c, s, turns, end);
    OthersWaitTwice(s.q, middle.q, end.q, k);
  }

  // ---- the whole queue -----------------------------------------------------------------------------

  /** Nobody is half-way through a push: every ticket not yet taken is published. */
  ghost predicate AllPublished(q: State<Message>) {
    q.dequeuePos <= |q.tickets| == q.enqueuePos
    && forall k | q.dequeuePos <= k < |q.tickets| :: q.tickets[k].phase == Published
  }

  /** Left alone, the worker deals with everything that is in the queue. */
  lemma {:induction false} HandlesAll(c: Config, s: System) returns (turns: seq<Turn>, end: System)
    requires SystemInv(c, s) && s.worker == LoopTop && AllPublished(s.q)
    ensures OnlyWorker(turns)
    ensures Play(c, s, turns) == Some(end) && SystemInv(c, end) && end.worker == LoopTop
    ensures end.q.dequeuePos == end.q.enqueuePos == |end.q.tickets| == |s.q.tickets|
    ensures forall k | 0 <= k < |s.q.tickets| :: end.q.tickets[k].item == s.q.tickets[k].item
    ensures s.terminateRequested || (exists k :: s.q.dequeuePos <= k < |s.q.tickets| && s.q.tickets[k].item == Terminate)
      ==> end.terminateRequested
    decreases s.q.enqueuePos - s.q.dequeuePos
  {
    if s.q.dequeuePos == |s.q.tickets| {
      turns, end := [], s;
    } else {
      var first, middle := HandlesOne(c, s);
      var more;
      more, end := HandlesAll(c, middle);
      PlayJoin(c, s, first, middle, more, end);
      turns := first + more;
    }
  }

  lemma FindsNothing(c: Config, s: System) returns (turns: seq<Turn>, end: System)
    requires SystemInv(c, s) && s.worker == LoopTop && s.q.dequeuePos == s.q.enqueuePos
    ensures OnlyWorker(turns)
    ensures Play(c, s, turns) == Some(end) && SystemInv(c, end) && end.worker == Dequeuing && SameBooks(s, end)
    ensures At(end.q, WORKER) == DeqFalse && end.q == Go(s.q, WORKER, DeqFalse)
  {
    var q0;
    turns, end := Looks(c, s);
    q0 := end.q;
    DequeueFailsInv(q0, WORKER);
    end := QueueTurn(c, s, turns, end, Step, Next(q0, WORKER, Step).value);
    turns := turns + [WorkerQueue(Step)];
  }

  lemma TerminateIsPending(c: Config, s: System)
    requires SystemInv(c, s) && s.terminateRequested && s.worker == Dequeuing
    ensures s.flushRequested
  {
  }

  /** And if it has been told to end, it flushes all sinks once more, and ends. */
  lemma Ends(c: Config, s: System) returns (turns: seq<Turn>, end: System)
    requires SystemInv(c, s) && s.worker == LoopTop && s.q.dequeuePos == s.q.enqueuePos && s.terminateRequested
    ensures OnlyWorker(turns)
    ensures Play(c, s, turns) == Some(end) && end.worker == Exited
    ensures end.q.tickets == s.q.tickets && end.q.dequeuePos == s.q.dequeuePos
    ensures end.out == s.out + Sweep(c.sinks) + [FlushDone]
  {
    var middle, idle;
    turns, middle := FindsNothing(c, s);
    TerminateIsPending(c, middle);
    idle := EmptyQueueFlushes(c, middle, false);
    PlayJoin(c, s, turns, middle, [Worker(false, false)] + Undisturbed(c.sinks + 1), idle);
    turns := turns + ([Worker(false, false)] + Undisturbed(c.sinks + 1));
    DecidesToEnd(c, idle);
    end := idle.(worker := Exited);
    PlayJoin(c, s, turns, idle, [Worker(false, false)], end);
    turns := turns + [Worker(false, false)];
  }

  /**
   * A worker that is left alone with a queue in which a terminate message stands comes to its end, with
   * every message in the queue dealt with and every sink flushed, whatever throws on the way.
   */
  lemma WorkerComesToItsEnd(c: Config, s: System) returns (turns: seq<Turn>, end: System)
    requires SystemInv(c, s) && s.worker == LoopTop && AllPublished(s.q)
    requires s.terminateRequested
          || exists k :: s.q.dequeuePos <= k < |s.q.tickets| && s.q.tickets[k].item == Terminate
    ensures OnlyWorker(turns)
    ensures Play(c, s, turns) == Some(end) && end.worker == Exited
    ensures end.q.dequeuePos == |end.q.tickets| == |s.q.tickets|
    ensures forall k | 0 <= k < |s.q.tickets| :: end.q.tickets[k].item == s.q.tickets[k].item
  {
    var first, middle := HandlesAll(c, s);
    var more;
    more, end := Ends(c, middle);
    PlayJoin(c, s, first, middle, more, end);
    turns := first + more;
  }
}
