/** What the asynchronous logger promises, over every run of its clients and its worker. */
module AsyncRuns {
  import opened Options
  import opened BitMask
  import opened MpmcQueue
  import opened MpmcRuns
  import opened AsyncWorker
  import opened AsyncInvariant

  /** The state after the given turns, or `None` when one of them is not possible. */
  ghost function Play(c: Config, s: System, turns: seq<Turn>): Option<System>
    decreases |turns|
  {
    if turns == [] then Some(s)
    else if !Shaped(s.q) then None
    else
      var next := NextSystem(c, s, turns[0]);
      if next.None? then None else Play(c, next.value, turns[1..])
  }

  lemma {:induction false} PlayKeepsInv(c: Config, s: System, turns: seq<Turn>)
    requires SystemInv(c, s) && Play(c, s, turns).Some?
    ensures SystemInv(c, Play(c, s, turns).value)
    decreases |turns|
  {
    if turns != [] {
      SystemStepKeepsInv(c, s, turns[0]);
      PlayKeepsInv(c, NextSystem(c, s, turns[0]).value, turns[1..]);
    }
  }

  lemma StepExtends(c: Config, s: System, m: Turn)
    requires SystemInv(c, s) && NextSystem(c, s, m).Some?
    ensures Extends(s.q, NextSystem(c, s, m).value.q)
    ensures s.out <= NextSystem(c, s, m).value.out
  {
    match m
    case Client(t, a) => NextExtends(s.q, t, a);
    case WorkerQueue(a) => NextExtends(s.q, WORKER, a);
    case ClientRetry(_) =>
      assert SameHistory(s.q, NextSystem(c, s, m).value.q);
      SameHistoryExtends(s.q, NextSystem(c, s, m).value.q);
    case Worker(expired, throws) => WorkerExtends(c, s, expired, throws);
  }

  ghost predicate SameHistory(q: State<Message>, q': State<Message>) {
    q'.size == q.size && q'.tickets == q.tickets && q'.enqueuePos == q.enqueuePos && q'.dequeuePos == q.dequeuePos
  }

  lemma SameHistoryExtends(q: State<Message>, q': State<Message>)
    requires SameHistory(q, q')
    ensures Extends(q, q')
  {
  }

  /** The worker's own steps leave the queue's history alone and only add to the transcript. */
  lemma WorkerExtends(c: Config, s: System, expired: bool, throws: bool)
    requires Shaped(s.q) && NextWorker(c, s, expired, throws).Some?
    ensures Extends(s.q, NextWorker(c, s, expired, throws).value.q)
    ensures s.out <= NextWorker(c, s, expired, throws).value.out
  {
    assert SameHistory(s.q, NextWorker(c, s, expired, throws).value.q);
    SameHistoryExtends(s.q, NextWorker(c, s, expired, throws).value.q);
  }

  lemma ExtendsTransitive<T>(a: State<T>, b: State<T>, d: State<T>)
    requires Extends(a, b) && Extends(b, d)
    ensures Extends(a, d)
  {
    forall k | 0 <= k < |a.tickets| ensures TicketExtends(a.tickets[k], d.tickets[k]) {
      assert TicketExtends(a.tickets[k], b.tickets[k]) && TicketExtends(b.tickets[k], d.tickets[k]);
    }
  }

  lemma {:induction false} PlayExtends(c: Config, s: System, turns: seq<Turn>)
    requires SystemInv(c, s) && Play(c, s, turns).Some?
    ensures Extends(s.q, Play(c, s, turns).value.q)
    ensures s.out <= Play(c, s, turns).value.out
    decreases |turns|
  {
    if turns != [] {
      var next := NextSystem(c, s, turns[0]).value;
      SystemStepKeepsInv(c, s, turns[0]);
      StepExtends(c, s, turns[0]);
      PlayExtends(c, next, turns[1..]);
      ExtendsTransitive(s.q, next.q, Play(c, s, turns).value.q);
    }
  }

  // ---- delivery --------------------------------------------------------------------------------

  /**
   * When the worker exits it has taken a terminate message, it has made exactly the calls owed to
   * every ticket it took, in ticket order and whatever threw on the way, and its last calls are one
   * complete flush of all sinks with no flush request left open.
   */
  lemma ExitedWorkerIsDone(c: Config, start: System, turns: seq<Turn>, s: System)
    requires IsStart(start) && Play(c, start, turns) == Some(s) && s.worker == Exited
    ensures TerminateSeen(s.q.tickets, s.q.dequeuePos)
    ensures Handled(s.out) == Script(c, s.q.tickets, s.q.dequeuePos)
    ensures EndsWith(s.out, Sweep(c.sinks) + [FlushDone]) && !FlushPending(s.out)
  {
    StartEstablishesInv(c, start);
    PlayKeepsInv(c, start, turns);
  }

  /**
   * Every message whose ticket was claimed before any terminate message's is among the tickets the
   * worker has handled when it exits.
   */
  lemma EarlierMessagesAreHandled(
    c: Config, start: System, before: seq<Turn>, mid: System, after: seq<Turn>, end: System)
    requires IsStart(start) && Play(c, start, before) == Some(mid) && Play(c, mid, after) == Some(end)
    requires !TerminateSeen(mid.q.tickets, |mid.q.tickets|) && end.worker == Exited
    ensures |mid.q.tickets| <= end.q.dequeuePos <= |end.q.tickets|
    ensures forall k | 0 <= k < |mid.q.tickets| :: end.q.tickets[k].item == mid.q.tickets[k].item
    ensures Handled(end.out) == Script(c, end.q.tickets, end.q.dequeuePos)
  {
    StartEstablishesInv(c, start);
    PlayKeepsInv(c, start, before);
    PlayKeepsInv(c, mid, after);
    PlayExtends(c, mid, after);
    forall k | 0 <= k < |mid.q.tickets| ensures end.q.tickets[k].item == mid.q.tickets[k].item {
      assert TicketExtends(mid.q.tickets[k], end.q.tickets[k]);
    }
    forall k | 0 <= k < |mid.q.tickets| ensures end.q.tickets[k].item != Terminate {
      assert mid.q.tickets[k].item != Terminate;
    }
  }

  /** The tickets in the order their messages were handed to the formatter. */
  function FormatCalls(out: seq<Event>): seq<nat> {
    if out == [] then []
    else
      var last := out[|out| - 1];
      FormatCalls(out[..|out| - 1])
      + if last.Formatted? || last.FormatThrew? then [last.ticket] else []
  }

  /** The tickets in the order sink `j` completed their messages. */
  function SinkCalls(out: seq<Event>, j: nat): seq<nat> {
    if out == [] then []
    else
      var last := out[|out| - 1];
      SinkCalls(out[..|out| - 1], j) + if last.SinkLogged? && last.sink == j then [last.ticket] else []
  }

  /** The tickets below `n` that carry log messages, ascending. */
  function LogTickets(tickets: seq<Ticket<Message>>, n: nat): seq<nat>
    requires n <= |tickets|
  {
    if n == 0 then []
    else LogTickets(tickets, n - 1) + if tickets[n - 1].item.Log? then [n - 1] else []
  }

  /** Sink `j` completes message `k`: it wants it, does not throw, and nothing before it threw. */
  predicate Completes(c: Config, k: nat, j: nat) {
    && j < c.sinks && !c.formatThrows(k) && c.shouldLog(k, j) && !c.sinkThrows(k, j)
    && (forall i | 0 <= i < j :: !(c.shouldLog(k, i) && c.sinkThrows(k, i)))
  }

  function DeliveredTickets(c: Config, tickets: seq<Ticket<Message>>, n: nat, j: nat): seq<nat>
    requires n <= |tickets|
  {
    if n == 0 then []
    else DeliveredTickets(c, tickets, n - 1, j)
         + if tickets[n - 1].item.Log? && Completes(c, n - 1, j) then [n - 1] else []
  }

  lemma {:induction false} FormatCallsAppend(a: seq<Event>, b: seq<Event>)
    ensures FormatCalls(a + b) == FormatCalls(a) + FormatCalls(b)
  {
    if b == [] {
      assert a + b == a;
    } else {
      var init := b[..|b| - 1];
      FormatCallsAppend(a, init);
      assert (a + b)[..|a + b| - 1] == a + init;
    }
  }

  lemma {:induction false} SinkCallsAppend(a: seq<Event>, b: seq<Event>, j: nat)
    ensures SinkCalls(a + b, j) == SinkCalls(a, j) + SinkCalls(b, j)
  {
    if b == [] {
      assert a + b == a;
    } else {
      var init := b[..|b| - 1];
      SinkCallsAppend(a, init, j);
      assert (a + b)[..|a + b| - 1] == a + init;
    }
  }

  lemma {:induction false} CallsOfHandled(out: seq<Event>, j: nat)
    ensures FormatCalls(Handled(out)) == FormatCalls(out)
    ensures SinkCalls(Handled(out), j) == SinkCalls(out, j)
  {
    if out != [] {
      var init, last := out[..|out| - 1], out[|out| - 1];
      CallsOfHandled(init, j);
      if IsFlushCall(last) {
        assert Handled(init) + [] == Handled(init);
        assert FormatCalls(init) + [] == FormatCalls(init) && SinkCalls(init, j) + [] == SinkCalls(init, j);
      } else {
        assert (Handled(init) + [last])[..|Handled(init)|] == Handled(init);
      }
    }
  }

  /** A way of counting calls that adds up over consecutive transcripts. */
  ghost predicate AddsUp(calls: seq<Event> -> seq<nat>) {
    calls([]) == [] && forall a, b {:trigger calls(a + b)} :: calls(a + b) == calls(a) + calls(b)
  }

  function CallsOfFormat(): (calls: seq<Event> -> seq<nat>) {
    out => FormatCalls(out)
  }

  lemma FormatCallsAddUp()
    ensures AddsUp(CallsOfFormat())
  {
    forall a, b ensures FormatCalls(a + b) == FormatCalls(a) + FormatCalls(b) {
      FormatCallsAppend(a, b);
    }
  }

  function CallsOfSink(j: nat): (calls: seq<Event> -> seq<nat>) {
    out => SinkCalls(out, j)
  }

  lemma SinkCallsAddUp(j: nat)
    ensures AddsUp(CallsOfSink(j))
  {
    forall a, b ensures SinkCalls(a + b, j) == SinkCalls(a, j) + SinkCalls(b, j) {
      SinkCallsAppend(a, b, j);
    }
  }

  /** No sink from `i` up to `j` throws on message `k`. */
  ghost predicate NoneThrows(c: Config, k: nat, i: nat, j: nat) {
    forall h | i <= h < j :: !(c.shouldLog(k, h) && c.sinkThrows(k, h))
  }

  function SinkEvent(c: Config, k: nat, i: nat): Event {
    if !c.shouldLog(k, i) then SinkSkipped(k, i)
    else if c.sinkThrows(k, i) then SinkThrew(k, i) else SinkLogged(k, i)
  }

  lemma SinkScriptFirst(c: Config, k: nat, i: nat)
    requires i < c.sinks
    ensures SinkScript(c, k, i) == [SinkEvent(c, k, i)]
      + if c.shouldLog(k, i) && c.sinkThrows(k, i) then [] else SinkScript(c, k, i + 1)
  {
  }

  /** What is counted of message `k` is the completion by sink `j`, if `j` is a sink at all. */
  ghost predicate CountsSink(calls: seq<Event> -> seq<nat>, k: nat, j: int) {
    && (forall h :: calls([SinkSkipped(k, h)]) == [])
    && (forall h :: calls([SinkThrew(k, h)]) == [])
    && (forall h :: calls([SinkLogged(k, h)]) == if h == j then [k] else [])
  }

  lemma {:induction false} CountsInSinkScript(c: Config, k: nat, i: nat, j: int, calls: seq<Event> -> seq<nat>)
    requires i <= c.sinks && AddsUp(calls) && CountsSink(calls, k, j)
    ensures calls(SinkScript(c, k, i))
            == if i <= j < c.sinks && c.shouldLog(k, j) && !c.sinkThrows(k, j) && NoneThrows(c, k, i, j)
               then [k] else []
    decreases c.sinks - i
  {
    if i < c.sinks {
      var throws := c.shouldLog(k, i) && c.sinkThrows(k, i);
      var rest := if throws then [] else SinkScript(c, k, i + 1);
      SinkScriptFirst(c, k, i);
      assert calls([SinkEvent(c, k, i)] + rest) == calls([SinkEvent(c, k, i)]) + calls(rest);
      if !throws {
        CountsInSinkScript(c, k, i + 1, j, calls);
        assert i <= j ==> (NoneThrows(c, k, i, j) <==> NoneThrows(c, k, i + 1, j));
      } else {
        assert i < j ==> !NoneThrows(c, k, i, j);
      }
    }
  }

  lemma SingleCall(e: Event, j: nat)
    ensures FormatCalls([e]) == if e.Formatted? || e.FormatThrew? then [e.ticket] else []
    ensures SinkCalls([e], j) == if e.SinkLogged? && e.sink == j then [e.ticket] else []
  {
    assert [e][..0] == [];
  }

  lemma CountsSinks(k: nat, j: nat)
    ensures CountsSink(CallsOfFormat(), k, -1) && CountsSink(CallsOfSink(j), k, j)
  {
    forall h ensures FormatCalls([SinkSkipped(k, h)]) == [] && SinkCalls([SinkSkipped(k, h)], j) == [] {
      SingleCall(SinkSkipped(k, h), j);
    }
    forall h ensures FormatCalls([SinkThrew(k, h)]) == [] && SinkCalls([SinkThrew(k, h)], j) == [] {
      SingleCall(SinkThrew(k, h), j);
    }
    forall h ensures FormatCalls([SinkLogged(k, h)]) == []
               && SinkCalls([SinkLogged(k, h)], j) == if h == j then [k] else [] {
      SingleCall(SinkLogged(k, h), j);
    }
  }

  lemma CountsInMessage(c: Config, k: nat, msg: Message, j: int, calls: seq<Event> -> seq<nat>, formats: seq<nat>)
    requires AddsUp(calls) && CountsSink(calls, k, j) && calls([FlushWanted(k)]) == []
    requires calls([Formatted(k)]) == formats && calls([FormatThrew(k)]) == formats
    ensures calls(MessageScript(c, k, msg))
         == if !msg.Log? then []
            else formats + if 0 <= j && Completes(c, k, j) then [k] else []
  {
    if msg.Log? && !c.formatThrows(k) {
      CountsInSinkScript(c, k, 0, j, calls);
      assert calls([Formatted(k)] + SinkScript(c, k, 0)) == formats + calls(SinkScript(c, k, 0));
    }
  }

  lemma CallsOfMessage(c: Config, k: nat, msg: Message, j: nat)
    ensures CallsOfFormat()(MessageScript(c, k, msg)) == if msg.Log? then [k] else []
    ensures CallsOfSink(j)(MessageScript(c, k, msg)) == if msg.Log? && Completes(c, k, j) then [k] else []
  {
    FormatCallsAddUp();
    SinkCallsAddUp(j);
    CountsSinks(k, j);
    SingleCall(FlushWanted(k), j);
    SingleCall(Formatted(k), j);
    SingleCall(FormatThrew(k), j);
    CountsInMessage(c, k, msg, -1, CallsOfFormat(), [k]);
    CountsInMessage(c, k, msg, j, CallsOfSink(j), []);
  }

  lemma {:induction false} CallsAddUp(c: Config, tickets: seq<Ticket<Message>>, n: nat,
                                      calls: seq<Event> -> seq<nat>, own: nat -> seq<nat>, sum: nat -> seq<nat>)
    requires n <= |tickets| && AddsUp(calls) && sum(0) == []
    requires forall k | 0 <= k < n :: sum(k + 1) == sum(k) + own(k)
    requires forall k | 0 <= k < n :: calls(MessageScript(c, k, tickets[k].item)) == own(k)
    ensures calls(Script(c, tickets, n)) == sum(n)
  {
    if n > 0 {
      CallsAddUp(c, tickets, n - 1, calls, own, sum);
      assert sum(n - 1 + 1) == sum(n - 1) + own(n - 1);
    }
  }

  function OwnLog(tickets: seq<Ticket<Message>>, k: nat): seq<nat> {
    if k < |tickets| && tickets[k].item.Log? then [k] else []
  }

  function OwnDelivery(c: Config, tickets: seq<Ticket<Message>>, j: nat, k: nat): seq<nat> {
    if k < |tickets| && tickets[k].item.Log? && Completes(c, k, j) then [k] else []
  }

  lemma FormatCallsOfScript(c: Config, tickets: seq<Ticket<Message>>, n: nat)
    requires n <= |tickets|
    ensures CallsOfFormat()(Script(c, tickets, n)) == LogTickets(tickets, n)
  {
    var own := (k: nat) => OwnLog(tickets, k);
    var sum := (k: nat) => if k <= |tickets| then LogTickets(tickets, k) else [];
    FormatCallsAddUp();
    forall k | 0 <= k < n ensures CallsOfFormat()(MessageScript(c, k, tickets[k].item)) == own(k) {
      CallsOfMessage(c, k, tickets[k].item, 0);
    }
    CallsAddUp(c, tickets, n, CallsOfFormat(), own, sum);
  }

  lemma SinkCallsOfScript(c: Config, tickets: seq<Ticket<Message>>, n: nat, j: nat)
    requires n <= |tickets|
    ensures CallsOfSink(j)(Script(c, tickets, n)) == DeliveredTickets(c, tickets, n, j)
  {
    var own := (k: nat) => OwnDelivery(c, tickets, j, k);
    var sum := (k: nat) => if k <= |tickets| then DeliveredTickets(c, tickets, k, j) else [];
    SinkCallsAddUp(j);
    forall k | 0 <= k < n ensures CallsOfSink(j)(MessageScript(c, k, tickets[k].item)) == own(k) {
      CallsOfMessage(c, k, tickets[k].item, j);
    }
    CallsAddUp(c, tickets, n, CallsOfSink(j), own, sum);
  }

  lemma CallsOfScript(c: Config, tickets: seq<Ticket<Message>>, n: nat, j: nat)
    requires n <= |tickets|
    ensures FormatCalls(Script(c, tickets, n)) == LogTickets(tickets, n)
    ensures SinkCalls(Script(c, tickets, n), j) == DeliveredTickets(c, tickets, n, j)
  {
    FormatCallsOfScript(c, tickets, n);
    SinkCallsOfScript(c, tickets, n, j);
  }

  /** Ticket lists are strictly ascending, so no ticket appears in one twice. */
  lemma {:induction false} LogTicketsAscend(tickets: seq<Ticket<Message>>, n: nat)
    requires n <= |tickets|
    ensures forall i, j | 0 <= i < j < |LogTickets(tickets, n)| :: LogTickets(tickets, n)[i] < LogTickets(tickets, n)[j]
    ensures forall k :: k in LogTickets(tickets, n) <==> 0 <= k < n && tickets[k].item.Log?
  {
    if n > 0 {
      LogTicketsAscend(tickets, n - 1);
      var init := LogTickets(tickets, n - 1);
      forall i | 0 <= i < |init| ensures init[i] < n - 1 {
        assert init[i] in init;
      }
    }
  }

  /** A sink's list holds exactly the log tickets below the bound that the sink completes. */
  lemma {:induction false} DeliveredAre(c: Config, tickets: seq<Ticket<Message>>, n: nat, j: nat)
    requires n <= |tickets|
    ensures forall k :: k in DeliveredTickets(c, tickets, n, j) <==>
              0 <= k < n && tickets[k].item.Log? && Completes(c, k, j)
  {
    if n > 0 {
      DeliveredAre(c, tickets, n - 1, j);
    }
  }

  /**
   * Exactly once and in ticket order: at exit the formatter has been called on precisely the log
   * messages among the tickets taken, and each sink has completed precisely those that nothing threw
   * on before it.
   */
  lemma ExactlyOnceInOrder(c: Config, start: System, turns: seq<Turn>, s: System, j: nat)
    requires IsStart(start) && Play(c, start, turns) == Some(s) && s.worker == Exited
    ensures s.q.dequeuePos <= |s.q.tickets|
    ensures FormatCalls(s.out) == LogTickets(s.q.tickets, s.q.dequeuePos)
    ensures SinkCalls(s.out, j) == DeliveredTickets(c, s.q.tickets, s.q.dequeuePos, j)
  {
    ExitedWorkerIsDone(c, start, turns, s);
    CallsOfHandled(s.out, j);
    CallsOfScript(c, s.q.tickets, s.q.dequeuePos, j);
  }

  lemma {:induction false} SinkScriptCalls(c: Config, k: nat, i: nat, j: nat, w: nat)
    ensures w !in FormatCalls(SinkScript(c, k, i)) && (w in SinkCalls(SinkScript(c, k, i), j) ==> w == k)
    decreases c.sinks - i
  {
    if i < c.sinks {
      var e := SinkEvent(c, k, i);
      var rest := if c.shouldLog(k, i) && c.sinkThrows(k, i) then [] else SinkScript(c, k, i + 1);
      SinkScriptFirst(c, k, i);
      SinkScriptCalls(c, k, i + 1, j, w);
      SingleCall(e, j);
      FormatCallsAppend([e], rest);
      SinkCallsAppend([e], rest, j);
    }
  }

  lemma MessageCalls(c: Config, k: nat, msg: Message, j: nat, w: nat)
    ensures w in FormatCalls(MessageScript(c, k, msg)) || w in SinkCalls(MessageScript(c, k, msg), j) ==> w == k
  {
    CallsOfMessage(c, k, msg, j);
    assert CallsOfFormat()(MessageScript(c, k, msg)) == FormatCalls(MessageScript(c, k, msg));
    assert CallsOfSink(j)(MessageScript(c, k, msg)) == SinkCalls(MessageScript(c, k, msg), j);
  }

  /** What is still owed is owed to the newest ticket taken. */
  lemma OwedToNewest(c: Config, s: System, j: nat, w: nat)
    requires SystemInv(c, s)
    requires w in FormatCalls(Owed(c, s)) || w in SinkCalls(Owed(c, s), j)
    ensures w + 1 == s.q.dequeuePos
  {
    match s.worker
    case Formatting(k, msg) => MessageCalls(c, k, msg, j, w);
    case Sinking(k, _, i) => SinkScriptCalls(c, k, i, j, w);
    case Dequeuing =>
      match At(s.q, WORKER) {
        case DeqMove(k) =>
          if k < |s.q.tickets| {
            MessageCalls(c, k, s.q.tickets[k].item, j, w);
          }
        case DeqRelease(k, msg) => MessageCalls(c, k, msg, j, w);
        case DeqTrue(k, msg) => MessageCalls(c, k, msg, j, w);
        case _ =>
      }
    case _ =>
  }

  /**
   * In every reachable state, a log message below the newest one taken has been formatted, and each sink
   * that can complete it has.
   */
  lemma OlderLogsAreDone(c: Config, s: System, w: nat, j: nat)
    requires SystemInv(c, s) && w + 1 < s.q.dequeuePos && s.q.tickets[w].item.Log?
    ensures w in FormatCalls(s.out)
    ensures w in SinkCalls(s.out, j) <==> Completes(c, w, j)
  {
    var n, handled, owed := s.q.dequeuePos, Handled(s.out), Owed(c, s);
    CallsOfHandled(s.out, j);
    CallsOfScript(c, s.q.tickets, n, j);
    FormatCallsAppend(handled, owed);
    SinkCallsAppend(handled, owed, j);
    LogTicketsAscend(s.q.tickets, n);
    DeliveredAre(c, s.q.tickets, n, j);
    if w in FormatCalls(owed) || w in SinkCalls(owed, j) {
      OwedToNewest(c, s, j, w);
    }
  }

  // ---- flushing --------------------------------------------------------------------------------

  /**
   * In every reachable state the worker's flag says whether a dequeued flush request is still
   * unanswered, and every completed flush in the transcript is one call to each sink in turn.
   */
  lemma FlushRequestsStayPending(c: Config, start: System, turns: seq<Turn>, s: System)
    requires IsStart(start) && Play(c, start, turns) == Some(s)
    ensures s.flushRequested <==> FlushPending(s.out)
    ensures FlushesComplete(c, s.out)
  {
    StartEstablishesInv(c, start);
    PlayKeepsInv(c, start, turns);
  }

  /** What "no request pending" means for each request: a completed flush came after it. */
  lemma {:induction false} NotPendingMeansAnswered(out: seq<Event>, i: nat)
    requires !FlushPending(out) && i < |out| && out[i].FlushWanted?
    ensures exists j :: i < j < |out| && out[j] == FlushDone
  {
    var n := |out| - 1;
    if out[n] == FlushDone {
      assert i < n;
    } else {
      NotPendingMeansAnswered(out[..n], i);
      var j :| i < j < n && out[..n][j] == FlushDone;
      assert out[j] == FlushDone;
    }
  }

  /** Every request in the transcript is followed by a completed flush. */
  ghost predicate AllFlushed(out: seq<Event>) {
    forall i | 0 <= i < |out| && out[i].FlushWanted? :: exists j :: i < j < |out| && out[j] == FlushDone
  }

  lemma {:induction false} PendingIsNotAllFlushed(out: seq<Event>)
    ensures FlushPending(out) <==> !AllFlushed(out)
  {
    if FlushPending(out) {
      var n := |out| - 1;
      if !out[n].FlushWanted? {
        PendingIsNotAllFlushed(out[..n]);
        var i :| 0 <= i < n && out[..n][i].FlushWanted? && forall j | i < j < n :: out[..n][j] != FlushDone;
        assert out[i].FlushWanted?;
        assert forall j | i < j < |out| :: out[j] != FlushDone by {
          forall j | i < j < |out| ensures out[j] != FlushDone {
            assert j < n ==> out[..n][j] == out[j];
          }
        }
      }
    } else {
      forall i | 0 <= i < |out| && out[i].FlushWanted?
        ensures exists j :: i < j < |out| && out[j] == FlushDone
      {
        NotPendingMeansAnswered(out, i);
      }
    }
  }

  /** The worker has taken ticket `w` off the queue but not yet acted on it. */
  ghost predicate Holds(s: System, w: nat) {
    && s.worker == Dequeuing
    && match At(s.q, WORKER)
       case DeqMove(k) => k == w
       case DeqRelease(k, _) => k == w
       case DeqTrue(k, _) => k == w
       case _ => false
  }

  lemma {:induction false} HandledHasRequests(out: seq<Event>, w: nat)
    ensures FlushWanted(w) in Handled(out) <==> FlushWanted(w) in out
  {
    if out != [] {
      HandledHasRequests(out[..|out| - 1], w);
      assert out == out[..|out| - 1] + [out[|out| - 1]];
    }
  }

  lemma {:induction false} NoRequestInSinkScript(c: Config, k: nat, j: nat, w: nat)
    ensures FlushWanted(w) !in SinkScript(c, k, j)
    decreases c.sinks - j
  {
    if j < c.sinks {
      NoRequestInSinkScript(c, k, j + 1, w);
    }
  }

  lemma RequestInMessage(c: Config, k: nat, msg: Message, w: nat)
    ensures FlushWanted(w) in MessageScript(c, k, msg) <==> w == k && !msg.Log?
  {
    NoRequestInSinkScript(c, k, 0, w);
  }

  lemma {:induction false} RequestInScript(c: Config, tickets: seq<Ticket<Message>>, n: nat, w: nat)
    requires n <= |tickets|
    ensures FlushWanted(w) in Script(c, tickets, n) <==> w < n && !tickets[w].item.Log?
  {
    if n > 0 {
      RequestInScript(c, tickets, n - 1, w);
      RequestInMessage(c, n - 1, tickets[n - 1].item, w);
    }
  }

  lemma CancelRight(a: seq<Event>, b: seq<Event>, c: seq<Event>)
    requires a + c == b + c
    ensures a == b
  {
    assert |a| == |b| && (a + c)[..|a|] == a && (b + c)[..|b|] == b;
  }

  /** What the worker holds, it still owes; what is handled is the script without it. */
  lemma HeldIsOwed(c: Config, s: System, w: nat)
    requires Books(c, s) && Holds(s, w) && w < |s.q.tickets|
    requires At(s.q, WORKER).DeqMove? || s.q.tickets[w].item == At(s.q, WORKER).value
    ensures s.q.dequeuePos == w + 1 && Handled(s.out) == Script(c, s.q.tickets, w)
  {
    var own := MessageScript(c, w, s.q.tickets[w].item);
    assert Owed(c, s) == own;
    assert Script(c, s.q.tickets, w + 1) == Script(c, s.q.tickets, w) + own;
    CancelRight(Handled(s.out), Script(c, s.q.tickets, w), own);
  }

  lemma NotHeldOwesNoRequest(c: Config, s: System, w: nat)
    requires Books(c, s) && !Holds(s, w)
    ensures FlushWanted(w) !in Owed(c, s)
  {
    match s.worker
    case Formatting(k, msg) => RequestInMessage(c, k, msg, w);
    case Sinking(k, _, j) => NoRequestInSinkScript(c, k, j, w);
    case Dequeuing =>
      match At(s.q, WORKER) {
        case DeqMove(k) =>
          if k < |s.q.tickets| {
            RequestInMessage(c, k, s.q.tickets[k].item, w);
          }
        case DeqRelease(k, msg) => RequestInMessage(c, k, msg, w);
        case DeqTrue(k, msg) => RequestInMessage(c, k, msg, w);
        case _ =>
      }
    case _ =>
  }

  /** A flush or terminate request that has been taken has been processed iff the worker is past holding it. */
  lemma RequestProcessedIff(c: Config, s: System, w: nat)
    requires SystemInv(c, s) && w < s.q.dequeuePos && !s.q.tickets[w].item.Log?
    ensures FlushWanted(w) in s.out <==> !Holds(s, w)
    ensures Holds(s, w) ==> w + 1 == s.q.dequeuePos
  {
    HandledHasRequests(s.out, w);
    if Holds(s, w) {
      assert ThreadOk(s.q, WORKER);
      HeldIsOwed(c, s, w);
      RequestInScript(c, s.q.tickets, w, w);
    } else {
      NotHeldOwesNoRequest(c, s, w);
      RequestInScript(c, s.q.tickets, s.q.dequeuePos, w);
      assert FlushWanted(w) in Handled(s.out) + Owed(c, s) <==> FlushWanted(w) in Handled(s.out);
    }
  }

  /**
   * `flush(true)` returns once `approx_size` reads zero: at that moment every ticket claimed so far,
   * its own flush request included, has been taken by the worker.
   */
  lemma FlushWaitMeansTaken(c: Config, start: System, turns: seq<Turn>, s: System, t: ThreadId)
    requires IsStart(start) && Play(c, start, turns) == Some(s)
    requires At(s.q, t).SizeLoadEnq?
    requires ApproxSize(s.q.size, At(s.q, t).first, s.q.enqueuePos) == 0
    ensures s.q.dequeuePos == s.q.enqueuePos == |s.q.tickets|
    ensures forall k | 0 <= k < |s.q.tickets| ::
              s.q.tickets[k].phase.Reading? || s.q.tickets[k].phase.Released?
  {
    StartEstablishesInv(c, start);
    PlayKeepsInv(c, start, turns);
    assert ThreadOk(s.q, t);
    forall k | 0 <= k < |s.q.tickets|
      ensures s.q.tickets[k].phase.Reading? || s.q.tickets[k].phase.Released?
    {
      assert TicketOk(s.q, k);
    }
  }

  /**
   * Exactly how much the end of the wait means. A request `w` claimed by then has been processed iff
   * the worker does not hold it any more; only the newest ticket can be held. And all requests
   * processed by then have been answered by a completed flush iff the worker's flag is down.
   */
  lemma FlushWaitMeansProcessedIff(c: Config, start: System, turns: seq<Turn>, s: System, t: ThreadId, w: nat)
    requires IsStart(start) && Play(c, start, turns) == Some(s)
    requires At(s.q, t).SizeLoadEnq?
    requires ApproxSize(s.q.size, At(s.q, t).first, s.q.enqueuePos) == 0
    requires w < |s.q.tickets| && !s.q.tickets[w].item.Log?
    ensures FlushWanted(w) in s.out <==> !Holds(s, w)
    ensures Holds(s, w) ==> w + 1 == |s.q.tickets|
    ensures AllFlushed(s.out) <==> !s.flushRequested
    ensures FlushWanted(w) in s.out && AllFlushed(s.out) <==> !Holds(s, w) && !s.flushRequested
  {
    StartEstablishesInv(c, start);
    PlayKeepsInv(c, start, turns);
    FlushWaitMeansTaken(c, start, turns, s, t);
    RequestProcessedIff(c, s, w);
    FlushRequestsStayPending(c, start, turns, s);
    PendingIsNotAllFlushed(s.out);
  }

  /**
   * What a caller wants of the wait: every log message with a ticket below another one, such as the
   * caller's own flush request, has been formatted when it ends, and has reached every sink it can reach.
   */
  lemma FlushWaitMeansLogged(c: Config, start: System, turns: seq<Turn>, s: System, t: ThreadId, w: nat, k: nat, j: nat)
    requires IsStart(start) && Play(c, start, turns) == Some(s)
    requires At(s.q, t).SizeLoadEnq?
    requires ApproxSize(s.q.size, At(s.q, t).first, s.q.enqueuePos) == 0
    requires w < k < |s.q.tickets| && s.q.tickets[w].item.Log?
    ensures w in FormatCalls(s.out)
    ensures w in SinkCalls(s.out, j) <==> Completes(c, w, j)
  {
    StartEstablishesInv(c, start);
    PlayKeepsInv(c, start, turns);
    FlushWaitMeansTaken(c, start, turns, s, t);
    OlderLogsAreDone(c, s, w, j);
  }

  /** Reachable: the state some run of a freshly started logger ends in. */
  ghost predicate Reachable(c: Config, s: System) {
    exists start, turns :: IsStart(start) && Play(c, start, turns) == Some(s)
  }

  lemma ReachableStep(c: Config, s: System, m: Turn)
    requires Reachable(c, s) && Shaped(s.q) && NextSystem(c, s, m).Some?
    ensures Reachable(c, NextSystem(c, s, m).value)
  {
    var start, turns :| IsStart(start) && Play(c, start, turns) == Some(s);
    PlayAppend(c, start, turns, [m]);
    var s' := NextSystem(c, s, m).value;
    assert [m][1..] == [];
    assert Play(c, s', []) == Some(s');
    assert Play(c, start, turns + [m]) == Some(s');
  }

  lemma ReachableInv(c: Config, s: System)
    requires Reachable(c, s)
    ensures SystemInv(c, s)
  {
    var start, turns :| IsStart(start) && Play(c, start, turns) == Some(s);
    StartEstablishesInv(c, start);
    PlayKeepsInv(c, start, turns);
  }

  /** A client's step in a reachable state, by its effect on the queue. */
  lemma ClientGoes(c: Config, s: System, t: ThreadId, a: Action<Message>, q': State<Message>) returns (s': System)
    requires Reachable(c, s) && t != WORKER && !a.BeginDequeue? && !At(s.q, t).EnqFalse?
    requires Shaped(s.q) && Next(s.q, t, a) == Some(q')
    ensures Reachable(c, s') && Shaped(s'.q) && s' == s.(q := q')
  {
    s' := s.(q := q');
    ReachableStep(c, s, Client(t, a));
    ReachableInv(c, s');
  }

  lemma WorkerGoes(c: Config, s: System, a: Action<Message>, q': State<Message>) returns (s': System)
    requires Reachable(c, s) && s.worker == Dequeuing && !a.Return?
    requires Shaped(s.q) && Next(s.q, WORKER, a) == Some(q')
    ensures Reachable(c, s') && Shaped(s'.q) && s' == s.(q := q')
  {
    s' := s.(q := q');
    ReachableStep(c, s, WorkerQueue(a));
    ReachableInv(c, s');
  }

  lemma WorkerBegins(c: Config, s: System) returns (s': System)
    requires Reachable(c, s) && Shaped(s.q) && s.worker == LoopTop
    ensures Reachable(c, s') && Shaped(s'.q)
    ensures s' == s.(q := Go(s.q, WORKER, DeqLoadPos), worker := Dequeuing)
  {
    s' := s.(q := Go(s.q, WORKER, DeqLoadPos), worker := Dequeuing);
    ReachableStep(c, s, Worker(false, false));
    ReachableInv(c, s');
  }

  /** A queue of two cells that has seen one flush request pushed by client 1. */
  ghost predicate OneFlushPushed(s: System) {
    && Shaped(s.q) && s.q.size == 2
    && s.q.tickets == [Ticket(Flush, 1, Published)] && s.q.enqueuePos == 1 && s.q.dequeuePos == 0
    && s.q.cells[0].sequence == 1 && At(s.q, 1) == At(s.q, 2) == Idle
    && s.worker == LoopTop && s.out == [] && !s.flushRequested
  }

  lemma FirstCells()
    ensures And(0, 1) == 0 && And(2, 1) == 0
  {
  }

  lemma PushOneFlush(c: Config) returns (s: System)
    ensures Reachable(c, s) && OneFlushPushed(s)
  {
    s := BeginFlush(c);
    FreshSequence(s.q);
    s := ClientGoes(c, s, 1, Step, Go(s.q, 1, EnqCas(Flush, 0)));
    s := ClaimOne(c, s);
  }

  lemma FreshSequence(q: State<Message>)
    requires Shaped(q) && q.size == 2 && q.cells[0].sequence == 0 && At(q, 1) == EnqLoadSeq(Flush, 0)
    ensures Next(q, 1, Step) == Some(Go(q, 1, EnqCas(Flush, 0)))
  {
    FirstCells();
  }

  /** Client 1 has read the position of a fresh queue. */
  lemma BeginFlush(c: Config) returns (s: System)
    ensures Reachable(c, s) && Shaped(s.q) && s.q.size == 2 && s.q.cells[0].sequence == 0 && s.q.tickets == []
    ensures s.q.enqueuePos == 0 && s.q.dequeuePos == 0 && At(s.q, 1) == EnqLoadSeq(Flush, 0) && At(s.q, 2) == Idle
    ensures s.worker == LoopTop && s.out == [] && !s.flushRequested
  {
    FirstCells();
    var q := State(2, [Cell(0, Flush), Cell(1, Flush)], 0, 0, map[], []);
    s := System(q, LoopTop, false, false, []);
    assert Play(c, s, []) == Some(s);
    s := ClientGoes(c, s, 1, BeginEnqueue(Flush), Go(s.q, 1, EnqLoadPos(Flush)));
    s := ClientGoes(c, s, 1, Step, Go(s.q, 1, EnqLoadSeq(Flush, 0)));
  }

  lemma ClaimOne(c: Config, s: System) returns (s': System)
    requires Reachable(c, s) && Shaped(s.q) && s.q.size == 2 && s.q.tickets == []
    requires s.q.enqueuePos == 0 && s.q.dequeuePos == 0 && At(s.q, 1) == EnqCas(Flush, 0) && At(s.q, 2) == Idle
    requires s.worker == LoopTop && s.out == [] && !s.flushRequested
    ensures Reachable(c, s') && OneFlushPushed(s')
  {
    var tickets := [Ticket(Flush, 1, Writing)];
    assert [] + tickets == tickets;
    s' := ClientGoes(c, s, 1, Step, Go(s.q, 1, EnqMove(Flush, 0)).(enqueuePos := 1, tickets := tickets));
    s' := FillOne(c, s');
  }

  lemma FillOne(c: Config, s: System) returns (s': System)
    requires Reachable(c, s) && Shaped(s.q) && s.q.size == 2 && s.q.tickets == [Ticket(Flush, 1, Writing)]
    requires s.q.enqueuePos == 1 && s.q.dequeuePos == 0 && At(s.q, 1) == EnqMove(Flush, 0) && At(s.q, 2) == Idle
    requires s.worker == LoopTop && s.out == [] && !s.flushRequested
    ensures Reachable(c, s') && OneFlushPushed(s')
  {
    FirstCells();
    var moved := SetCell(Go(s.q, 1, EnqPublish(Flush, 0)), 0, Cell(Sequence(s.q, 0), Flush));
    s' := ClientGoes(c, s, 1, Step, moved);
    s' := PublishOne(c, s');
  }

  lemma PublishOne(c: Config, s: System) returns (s': System)
    requires Reachable(c, s) && Shaped(s.q) && s.q.size == 2 && s.q.tickets == [Ticket(Flush, 1, Writing)]
    requires s.q.enqueuePos == 1 && s.q.dequeuePos == 0 && At(s.q, 1) == EnqPublish(Flush, 0) && At(s.q, 2) == Idle
    requires s.worker == LoopTop && s.out == [] && !s.flushRequested
    ensures Reachable(c, s') && OneFlushPushed(s')
  {
    FirstCells();
    var stored := SetPhase(SetCell(Go(s.q, 1, EnqTrue(Flush, 0)), 0, Cell(1, s.q.cells[0].data)), 0, Published);
    s' := ClientGoes(c, s, 1, Step, stored);
    s' := ClientGoes(c, s', 1, Return, Go(s'.q, 1, Idle));
  }

  /** The worker claims the request and stops short of reading it. */
  lemma ClaimRequest(c: Config, s: System) returns (s': System)
    requires Reachable(c, s) && OneFlushPushed(s)
    ensures Reachable(c, s') && Shaped(s'.q) && At(s'.q, 1) == Idle
    ensures s'.q.size == 2 && s'.q.enqueuePos == 1 && s'.q.dequeuePos == 1
    ensures |s'.q.tickets| == 1 && s'.q.tickets[0].item == Flush
    ensures s'.out == [] && !s'.flushRequested
  {
    s' := SeeRequest(c, s);
    s' := WorkerGoes(c, s', Step,
      SetPhase(Go(s'.q, WORKER, DeqMove(0)).(dequeuePos := 1), 0, Reading(WORKER)));
  }

  /** The worker sees that the request has been published. */
  lemma SeeRequest(c: Config, s: System) returns (s': System)
    requires Reachable(c, s) && OneFlushPushed(s)
    ensures Reachable(c, s') && s' == s.(q := s.q.(pcs := s'.q.pcs), worker := Dequeuing)
    ensures At(s'.q, WORKER) == DeqCas(0) && At(s'.q, 1) == Idle
  {
    s' := WorkerBegins(c, s);
    s' := WorkerGoes(c, s', Step, Go(s'.q, WORKER, DeqLoadSeq(0)));
    SequenceSeen(s'.q);
    s' := WorkerGoes(c, s', Step, Go(s'.q, WORKER, DeqCas(0)));
  }

  lemma SequenceSeen(q: State<Message>)
    requires Shaped(q) && q.size == 2 && q.cells[0].sequence == 1 && At(q, WORKER) == DeqLoadSeq(0)
    ensures Next(q, WORKER, Step) == Some(Go(q, WORKER, DeqCas(0)))
  {
    FirstCells();
  }

  /**
   * `flush(true)` promises less than "the request was processed": here its wait ends (client 1 reads
   * a size of zero) while the worker has only claimed the request and no sink has been flushed.
   */
  lemma FlushWaitMayEndUnflushed(c: Config) returns (s: System)
    ensures Reachable(c, s)
    ensures At(s.q, 1) == SizeDone(0)
    ensures |s.q.tickets| == 1 && s.q.tickets[0].item == Flush
    ensures s.out == [] && !s.flushRequested
  {
    s := PushOneFlush(c);
    s := ClaimRequest(c, s);
    s := ReadSize(c, s);
  }

  /** Client 1 reads the size of an empty queue. */
  lemma ReadSize(c: Config, s: System) returns (s': System)
    requires Reachable(c, s) && Shaped(s.q) && At(s.q, 1) == Idle
    requires s.q.enqueuePos == 1 && s.q.dequeuePos == 1
    ensures Reachable(c, s') && s' == s.(q := s.q.(pcs := s'.q.pcs)) && At(s'.q, 1) == SizeDone(0)
  {
    s' := ClientGoes(c, s, 1, BeginSize, Go(s.q, 1, SizeLoadDeq));
    s' := SizeStep(c, s', SizeLoadEnq(1));
    s' := SizeStep(c, s', SizeDone(0));
  }

  lemma SizeStep(c: Config, s: System, pc: Pc<Message>) returns (s': System)
    requires Reachable(c, s) && Shaped(s.q) && s.q.enqueuePos == 1 && s.q.dequeuePos == 1
    requires (At(s.q, 1) == SizeLoadDeq && pc == SizeLoadEnq(1)) || (At(s.q, 1) == SizeLoadEnq(1) && pc == SizeDone(0))
    ensures Reachable(c, s') && Shaped(s'.q)
    ensures s' == s.(q := s.q.(pcs := s'.q.pcs)) && At(s'.q, 1) == pc
  {
    s' := ClientGoes(c, s, 1, Step, Go(s.q, 1, pc));
  }

  // ---- pushing ---------------------------------------------------------------------------------

  /** No ticket from `from` on was won by `t`. */
  ghost predicate NoTicket(q: State<Message>, t: ThreadId, from: nat) {
    forall k | from <= k < |q.tickets| :: q.tickets[k].producer != t
  }

  /** Ticket `k` carries `item`, and of all tickets from `from` on it is the one that `t` won. */
  ghost predicate OwnTicket(q: State<Message>, t: ThreadId, item: Message, from: nat, k: nat) {
    && from <= k < |q.tickets| && q.tickets[k].item == item && q.tickets[k].producer == t
    && (forall j | from <= j < |q.tickets| && q.tickets[j].producer == t :: j == k)
  }

  /** Client `t` is inside `push_msg(item)`; `from` is the enqueue position when it began. */
  ghost predicate Pushing(q: State<Message>, t: ThreadId, item: Message, from: nat) {
    match At(q, t)
    case EnqLoadPos(x) => x == item && NoTicket(q, t, from)
    case EnqLoadSeq(x, _) => x == item && NoTicket(q, t, from)
    case EnqCas(x, _) => x == item && NoTicket(q, t, from)
    case EnqMove(x, pos) => x == item && OwnTicket(q, t, item, from, pos)
    case EnqPublish(x, pos) => x == item && OwnTicket(q, t, item, from, pos)
    case EnqTrue(x, pos) => x == item && OwnTicket(q, t, item, from, pos)
    case EnqFalse(x) => x == item && NoTicket(q, t, from)
    case _ => false
  }

  ghost predicate HasTicket(q: State<Message>, t: ThreadId, item: Message, from: nat) {
    exists k :: OwnTicket(q, t, item, from, k)
  }

  /** Tickets added since, if any, were won by others. */
  ghost predicate OthersOnly(q: State<Message>, q': State<Message>, t: ThreadId) {
    && |q.tickets| <= |q'.tickets|
    && (forall k | 0 <= k < |q.tickets| ::
          q'.tickets[k].item == q.tickets[k].item && q'.tickets[k].producer == q.tickets[k].producer)
    && (forall k | |q.tickets| <= k < |q'.tickets| :: q'.tickets[k].producer != t)
  }

  lemma OthersKeepTicket(q: State<Message>, q': State<Message>, t: ThreadId, item: Message, from: nat, k: nat)
    requires OthersOnly(q, q', t)
    ensures NoTicket(q, t, from) ==> NoTicket(q', t, from)
    ensures OwnTicket(q, t, item, from, k) ==> OwnTicket(q', t, item, from, k)
  {
  }

  lemma OthersKeepPushing(q: State<Message>, q': State<Message>, t: ThreadId, item: Message, from: nat)
    requires OthersOnly(q, q', t) && At(q', t) == At(q, t) && Pushing(q, t, item, from)
    ensures Pushing(q', t, item, from)
  {
    var k := if At(q, t).EnqMove? || At(q, t).EnqPublish? || At(q, t).EnqTrue? then At(q, t).pos else 0;
    OthersKeepTicket(q, q', t, item, from, k);
  }

  lemma OtherThreadsAdd(q: State<Message>, u: ThreadId, a: Action<Message>, q': State<Message>, t: ThreadId)
    requires Shaped(q) && Next(q, u, a) == Some(q') && u != t
    ensures OthersOnly(q, q', t) && At(q', t) == At(q, t)
  {
    if At(q, u).EnqCas? && a.Step? {
      assert q'.tickets == q.tickets + [Ticket(At(q, u).item, u, Writing)];
    } else {
      SameTickets(q, u, a, q');
    }
  }

  /** Only a winning enqueue adds a ticket; other steps change phases at most. */
  lemma SameTickets(q: State<Message>, u: ThreadId, a: Action<Message>, q': State<Message>)
    requires Shaped(q) && Next(q, u, a) == Some(q') && !(At(q, u).EnqCas? && a.Step?)
    ensures |q'.tickets| == |q.tickets|
    ensures forall k | 0 <= k < |q.tickets| ::
              q'.tickets[k].item == q.tickets[k].item && q'.tickets[k].producer == q.tickets[k].producer
  {
  }

  /** A winning swap gives the push its ticket. */
  lemma WinStep(q: State<Message>, t: ThreadId, item: Message, from: nat, q': State<Message>)
    requires Inv(q) && At(q, t).EnqCas? && Next(q, t, Step) == Some(q') && from <= q.enqueuePos
    requires Pushing(q, t, item, from)
    ensures Pushing(q', t, item, from)
  {
    assert q'.tickets == q.tickets + [Ticket(item, t, Writing)];
    assert |q.tickets| == At(q, t).pos;
  }

  lemma OwnPushStep(q: State<Message>, t: ThreadId, a: Action<Message>, item: Message, from: nat, q': State<Message>)
    requires Inv(q) && Next(q, t, a) == Some(q') && from <= q.enqueuePos
    requires Pushing(q, t, item, from) && !(At(q, t).EnqFalse? && a.Return?)
    ensures Pushing(q', t, item, from) || (At(q', t) == Idle && HasTicket(q', t, item, from))
  {
    if At(q, t).EnqCas? && a.Step? {
      WinStep(q, t, item, from, q');
    } else {
      assert OthersOnly(q, q', t);
      var k := if At(q, t).EnqMove? || At(q, t).EnqPublish? || At(q, t).EnqTrue? then At(q, t).pos else 0;
      OthersKeepTicket(q, q', t, item, from, k);
    }
  }

  /** Retrying is another attempt at the same push. */
  lemma RetryPushStep(q: State<Message>, u: ThreadId, q': State<Message>, t: ThreadId, item: Message, from: nat)
    requires At(q, u).EnqFalse? && q' == Go(q, u, EnqLoadPos(At(q, u).item)) && Pushing(q, t, item, from)
    ensures Pushing(q', t, item, from)
  {
    if u != t {
      assert OthersOnly(q, q', t) && At(q', t) == At(q, t);
      OthersKeepPushing(q, q', t, item, from);
    }
  }

  /** The worker's own steps change no thread but itself. */
  lemma WorkerPcOnly(c: Config, s: System, expired: bool, throws: bool, t: ThreadId)
    requires Shaped(s.q) && NextWorker(c, s, expired, throws).Some? && t != WORKER
    ensures var q' := NextWorker(c, s, expired, throws).value.q;
      SameHistory(s.q, q') && At(q', t) == At(s.q, t)
  {
  }

  lemma PushStep(c: Config, s: System, m: Turn, t: ThreadId, item: Message, from: nat)
    requires SystemInv(c, s) && NextSystem(c, s, m).Some? && c.blockRetry && t != WORKER
    requires Pushing(s.q, t, item, from) && from <= s.q.enqueuePos
    ensures var q' := NextSystem(c, s, m).value.q;
      Pushing(q', t, item, from) || (At(q', t) == Idle && HasTicket(q', t, item, from))
  {
    var q' := NextSystem(c, s, m).value.q;
    match m
    case Client(u, a) => ClientPushStep(s.q, u, a, q', t, item, from);
    case ClientRetry(u) => RetryPushStep(s.q, u, q', t, item, from);
    case WorkerQueue(a) => ClientPushStep(s.q, WORKER, a, q', t, item, from);
    case Worker(expired, throws) =>
      WorkerPcOnly(c, s, expired, throws, t);
      assert OthersOnly(s.q, q', t);
      OthersKeepPushing(s.q, q', t, item, from);
  }

  lemma ClientPushStep(q: State<Message>, u: ThreadId, a: Action<Message>, q': State<Message>, t: ThreadId,
                       item: Message, from: nat)
    requires Inv(q) && Next(q, u, a) == Some(q') && from <= q.enqueuePos && Pushing(q, t, item, from)
    requires u == t ==> !(At(q, t).EnqFalse? && a.Return?)
    ensures Pushing(q', t, item, from) || (At(q', t) == Idle && HasTicket(q', t, item, from))
  {
    if u == t {
      OwnPushStep(q, t, a, item, from, q');
    } else {
      OtherThreadsAdd(q, u, a, q', t);
      OthersKeepPushing(q, q', t, item, from);
    }
  }

  /** The turns run one call of thread `t` to its end: it is idle after the last of them and not before. */
  ghost predicate OneCall(c: Config, s: System, turns: seq<Turn>, t: ThreadId)
    decreases |turns|
  {
    turns != [] && Shaped(s.q) && NextSystem(c, s, turns[0]).Some? &&
    var next := NextSystem(c, s, turns[0]).value;
    if At(next.q, t) == Idle then turns[1..] == [] else OneCall(c, next, turns[1..], t)
  }

  /**
   * Under `block_retry` a push never gives its message up: when `push_msg` returns, exactly one ticket
   * claimed since the call began was won by the caller, and it carries the message.
   */
  lemma {:induction false} PushedMessageHasTicket(
    c: Config, s: System, turns: seq<Turn>, t: ThreadId, item: Message, from: nat)
    requires SystemInv(c, s) && c.blockRetry && t != WORKER
    requires Pushing(s.q, t, item, from) && from <= s.q.enqueuePos && OneCall(c, s, turns, t)
    ensures Play(c, s, turns).Some? && HasTicket(Play(c, s, turns).value.q, t, item, from)
    decreases |turns|
  {
    var next := NextSystem(c, s, turns[0]).value;
    SystemStepKeepsInv(c, s, turns[0]);
    StepExtends(c, s, turns[0]);
    PushStep(c, s, turns[0], t, item, from);
    if At(next.q, t) == Idle {
      assert Play(c, next, turns[1..]) == Some(next);
    } else {
      PushedMessageHasTicket(c, next, turns[1..], t, item, from);
    }
  }

  /** Different pushes have different tickets: another thread's, or a later one of the same thread. */
  lemma PushesShareNoTicket(q1: State<Message>, t: ThreadId, x: Message, from1: nat, k1: nat,
                            q2: State<Message>, u: ThreadId, y: Message, from2: nat, k2: nat, q: State<Message>)
    requires OwnTicket(q1, t, x, from1, k1) && OwnTicket(q2, u, y, from2, k2)
    requires Extends(q1, q) && Extends(q2, q) && (t != u || |q1.tickets| <= from2)
    ensures k1 != k2
  {
    assert TicketExtends(q1.tickets[k1], q.tickets[k1]) && TicketExtends(q2.tickets[k2], q.tickets[k2]);
  }

  /** With `discard_log_msg` a refused message may be dropped, and only then; never with `block_retry`. */
  lemma RefusedMessageDroppedIffDiscarding(c: Config, s: System, t: ThreadId)
    requires SystemInv(c, s) && t != WORKER && At(s.q, t).EnqFalse?
    ensures NextSystem(c, s, Client(t, Return)).Some? <==> !c.blockRetry
    ensures NextSystem(c, s, ClientRetry(t)).Some? <==> c.blockRetry
    ensures !c.blockRetry ==>
      At(NextSystem(c, s, Client(t, Return)).value.q, t) == Idle
      && NextSystem(c, s, Client(t, Return)).value.q.tickets == s.q.tickets
  {
  }

  lemma SecondCells()
    ensures And(1, 1) == 1 && And(2, 1) == 0
  {
  }

  /** A queue of two cells, both claimed by client 1, the first of them published. */
  ghost predicate BothClaimed(s: System) {
    && Shaped(s.q) && s.q.size == 2 && s.q.cells[0].sequence == 1
    && s.q.enqueuePos == 2 && s.q.dequeuePos == 0 && At(s.q, 2) == Idle
    && s.q.tickets == [Ticket(Flush, 1, Published), Ticket(Flush, 1, Writing)]
  }

  lemma ClaimBoth(c: Config) returns (s: System)
    ensures Reachable(c, s) && BothClaimed(s)
  {
    SecondCells();
    s := PushOneFlush(c);
    ReachableInv(c, s);
    s := ClientGoes(c, s, 1, BeginEnqueue(Flush), Go(s.q, 1, EnqLoadPos(Flush)));
    s := ClientGoes(c, s, 1, Step, Go(s.q, 1, EnqLoadSeq(Flush, 1)));
    s := ClientGoes(c, s, 1, Step, Go(s.q, 1, EnqCas(Flush, 1)));
    s := ClaimSecond(c, s);
  }

  lemma ClaimSecond(c: Config, s: System) returns (s': System)
    requires Reachable(c, s) && Shaped(s.q) && s.q.size == 2 && s.q.cells[0].sequence == 1
    requires s.q.enqueuePos == 1 && s.q.dequeuePos == 0 && s.q.tickets == [Ticket(Flush, 1, Published)]
    requires At(s.q, 1) == EnqCas(Flush, 1) && At(s.q, 2) == Idle
    ensures Reachable(c, s') && BothClaimed(s')
  {
    var tickets := [Ticket(Flush, 1, Published), Ticket(Flush, 1, Writing)];
    assert s.q.tickets + [Ticket(Flush, 1, Writing)] == tickets;
    s' := ClientGoes(c, s, 1, Step, Go(s.q, 1, EnqMove(Flush, 1)).(enqueuePos := 2, tickets := tickets));
  }

  /** Client 2 finds the queue full. */
  lemma RefuseTerminate(c: Config, s: System) returns (s': System)
    requires Reachable(c, s) && BothClaimed(s)
    ensures Reachable(c, s') && Shaped(s'.q) && s'.q.tickets == s.q.tickets && At(s'.q, 2) == EnqFalse(Terminate)
  {
    SecondCells();
    s' := ClientGoes(c, s, 2, BeginEnqueue(Terminate), Go(s.q, 2, EnqLoadPos(Terminate)));
    s' := ClientGoes(c, s', 2, Step, Go(s'.q, 2, EnqLoadSeq(Terminate, 2)));
    s' := ClientGoes(c, s', 2, Step, Go(s'.q, 2, EnqFalse(Terminate)));
  }

  /**
   * So under `discard_log_msg` even the message that ends the worker may be lost: here it is refused, the
   * push returns, and no ticket carries it.
   */
  lemma TerminateMayBeDropped(c: Config) returns (refused: System, returned: System)
    requires !c.blockRetry
    ensures Reachable(c, refused) && Shaped(refused.q) && At(refused.q, 2) == EnqFalse(Terminate)
    ensures NextSystem(c, refused, Client(2, Return)) == Some(returned)
    ensures Reachable(c, returned) && At(returned.q, 2) == Idle
    ensures !TerminateSeen(returned.q.tickets, |returned.q.tickets|)
  {
    var s := ClaimBoth(c);
    refused := RefuseTerminate(c, s);
    ReachableInv(c, refused);
    RefusedMessageDroppedIffDiscarding(c, refused, 2);
    returned := NextSystem(c, refused, Client(2, Return)).value;
    ReachableStep(c, refused, Client(2, Return));
  }

  /** A log message under a ticket claimed before any terminate message is formatted at exit. */
  lemma EarlierLogIsFormatted(
    c: Config, start: System, before: seq<Turn>, mid: System, after: seq<Turn>, end: System, k: nat)
    requires IsStart(start) && Play(c, start, before) == Some(mid) && Play(c, mid, after) == Some(end)
    requires !TerminateSeen(mid.q.tickets, |mid.q.tickets|) && end.worker == Exited
    requires k < |mid.q.tickets| && mid.q.tickets[k].item.Log?
    ensures k < |end.q.tickets| && TicketExtends(mid.q.tickets[k], end.q.tickets[k])
    ensures k in FormatCalls(end.out)
  {
    EarlierMessagesAreHandled(c, start, before, mid, after, end);
    PlayAppend(c, start, before, after);
    ExactlyOnceInOrder(c, start, before + after, end, 0);
    LogTicketsAscend(end.q.tickets, end.q.dequeuePos);
    StartEstablishesInv(c, start);
    PlayKeepsInv(c, start, before);
    PlayExtends(c, mid, after);
  }

  /**
   * The whole promise to a caller: a message whose push began after some reachable state and returned
   * before any terminate message was claimed has a ticket no other push shares, and is formatted under
   * it by the time the worker exits.
   */
  lemma LoggedBeforeExit(
    c: Config, start: System, t0: seq<Turn>, called: System, t1: seq<Turn>, returned: System,
    t2: seq<Turn>, end: System, t: ThreadId, item: Message) returns (k: nat)
    requires c.blockRetry && t != WORKER && item.Log?
    requires IsStart(start) && Play(c, start, t0) == Some(called) && At(called.q, t) == EnqLoadPos(item)
    requires Play(c, called, t1) == Some(returned) && OneCall(c, called, t1, t)
    requires !TerminateSeen(returned.q.tickets, |returned.q.tickets|)
    requires Play(c, returned, t2) == Some(end) && end.worker == Exited
    ensures OwnTicket(returned.q, t, item, called.q.enqueuePos, k)
    ensures k < |end.q.tickets| && end.q.tickets[k].item == item && end.q.tickets[k].producer == t
    ensures k in FormatCalls(end.out)
  {
    StartEstablishesInv(c, start);
    PlayKeepsInv(c, start, t0);
    PushedMessageHasTicket(c, called, t1, t, item, called.q.enqueuePos);
    k :| OwnTicket(returned.q, t, item, called.q.enqueuePos, k);
    PlayAppend(c, start, t0, t1);
    EarlierLogIsFormatted(c, start, t0 + t1, returned, t2, end, k);
  }

  lemma PlayFirst(c: Config, s: System, m: Turn, rest: seq<Turn>, next: Option<System>)
    requires Shaped(s.q) && next == NextSystem(c, s, m)
    ensures Play(c, s, [m] + rest) == if next.None? then None else Play(c, next.value, rest)
  {
    assert ([m] + rest)[1..] == rest;
  }

  lemma {:induction false} PlayAppend(c: Config, s: System, a: seq<Turn>, b: seq<Turn>)
    requires Play(c, s, a).Some?
    ensures Play(c, s, a + b) == Play(c, Play(c, s, a).value, b)
    decreases |a|
  {
    if a == [] {
      assert a + b == b;
    } else {
      var next := NextSystem(c, s, a[0]);
      assert a == [a[0]] + a[1..] && a + b == [a[0]] + (a[1..] + b);
      PlayFirst(c, s, a[0], a[1..], next);
      PlayFirst(c, s, a[0], a[1..] + b, next);
      PlayAppend(c, next.value, a[1..], b);
    }
  }
}
