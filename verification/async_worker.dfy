/**
 * The asynchronous logger: clients push messages through the queue, and one worker thread takes
 * them out, formats them, hands them to the sinks, and flushes and terminates on request.
 *
 * The system is one more step machine on top of the queue's. What formatters, sinks and clocks do is
 * left to the environment: any call may throw and any flush interval may or may not have expired.
 */
module AsyncWorker {
  import opened Options
  import opened MpmcQueue

  datatype Message = Log(level: int, text: string) | Flush | Terminate

  const WORKER: ThreadId := 0

  /** What the worker does to the outside, and the flush requests it takes off the queue. */
  datatype Event =
    | Formatted(ticket: nat)
    | FormatThrew(ticket: nat)
    | SinkLogged(ticket: nat, sink: nat)
    | SinkSkipped(ticket: nat, sink: nat)
    | SinkThrew(ticket: nat, sink: nat)
    | FlushWanted(ticket: nat)
    | SinkFlushed(sink: nat)
    | FlushThrew(sink: nat)
    | FlushDone

  /**
   * The logger's settings, and for each message (named by its ticket) how the formatter and each
   * sink will take it. A message reaches a sink at most once, so this loses no behaviour.
   */
  datatype Config = Config(
    sinks: nat,
    blockRetry: bool,
    hasFlushInterval: bool,
    formatThrows: nat -> bool,
    shouldLog: (nat, nat) -> bool,
    sinkThrows: (nat, nat) -> bool)

  datatype WorkerPc =
    | LoopTop
    | Dequeuing
    | Formatting(ticket: nat, msg: Message)
    | Sinking(ticket: nat, msg: Message, next: nat)
    | Flushing(next: nat)
    | Deciding
    | Exited

  datatype System = System(
    q: State<Message>,
    worker: WorkerPc,
    flushRequested: bool,
    terminateRequested: bool,
    out: seq<Event>)

  datatype Turn =
    | Client(thread: ThreadId, action: Action<Message>)
    | ClientRetry(thread: ThreadId)
    | WorkerQueue(action: Action<Message>)
    | Worker(expired: bool, throws: bool)

  ghost predicate IsStart(s: System) {
    && IsInit(s.q) && s.worker == LoopTop
    && !s.flushRequested && !s.terminateRequested && s.out == []
  }

  function WithQueue(s: System, q: Option<State<Message>>): Option<System> {
    if q.Some? then Some(s.(q := q.value)) else None
  }

  /** One step of a client or of the worker, or `None` when it is not possible. */
  function NextSystem(c: Config, s: System, m: Turn): Option<System>
    requires Shaped(s.q)
  {
    match m
    case Client(t, a) =>
      if t == WORKER || a.BeginDequeue? then None
      // with block_retry a refused message is not given up
      else if c.blockRetry && At(s.q, t).EnqFalse? && a.Return? then None
      else WithQueue(s, Next(s.q, t, a))
    case ClientRetry(t) =>
      if t == WORKER || !c.blockRetry || !At(s.q, t).EnqFalse? then None
      else Some(s.(q := Go(s.q, t, EnqLoadPos(At(s.q, t).item))))
    case WorkerQueue(a) =>
      if s.worker != Dequeuing || a.Return? then None
      else WithQueue(s, Next(s.q, WORKER, a))
    case Worker(expired, throws) => NextWorker(c, s, expired, throws)
  }

  function NextWorker(c: Config, s: System, expired: bool, throws: bool): Option<System>
    requires Shaped(s.q)
  {
    match s.worker
    case LoopTop => Some(s.(q := Go(s.q, WORKER, DeqLoadPos), worker := Dequeuing))
    case Dequeuing =>
      var idle := Go(s.q, WORKER, Idle);
      (match At(s.q, WORKER)
       case DeqTrue(k, msg) => Some(Taken(s.(q := idle), k, msg))
       case DeqFalse =>
         var shouldFlush := s.flushRequested || (c.hasFlushInterval && expired);
         Some(s.(q := idle, worker := if shouldFlush then Flushing(0) else Deciding))
       case _ => None)
    case Formatting(k, msg) =>
      if c.formatThrows(k) then Some(s.(out := s.out + [FormatThrew(k)], worker := LoopTop))
      else Some(s.(out := s.out + [Formatted(k)], worker := Sinking(k, msg, 0)))
    case Sinking(k, msg, j) =>
      if j >= c.sinks then Some(s.(worker := LoopTop))
      else if !c.shouldLog(k, j) then Some(s.(out := s.out + [SinkSkipped(k, j)], worker := Sinking(k, msg, j + 1)))
      else if c.sinkThrows(k, j) then Some(s.(out := s.out + [SinkThrew(k, j)], worker := LoopTop))
      else Some(s.(out := s.out + [SinkLogged(k, j)], worker := Sinking(k, msg, j + 1)))
    case Flushing(j) =>
      if j >= c.sinks then Some(s.(out := s.out + [FlushDone], flushRequested := false, worker := Deciding))
      else if throws then Some(s.(out := s.out + [FlushThrew(j)], worker := LoopTop))
      else Some(s.(out := s.out + [SinkFlushed(j)], worker := Flushing(j + 1)))
    case Deciding => Some(s.(worker := if s.terminateRequested then Exited else LoopTop))
    case Exited => None
  }

  /** The worker has taken the message of ticket `k` off the queue. */
  function Taken(s: System, k: nat, msg: Message): System {
    match msg
    case Log(_, _) => s.(worker := Formatting(k, msg))
    case Flush => s.(out := s.out + [FlushWanted(k)], flushRequested := true, worker := LoopTop)
    case Terminate =>
      s.(out := s.out + [FlushWanted(k)], flushRequested := true, terminateRequested := true, worker := LoopTop)
  }

  // ---- what the worker owes each message ------------------------------------------------------

  /** The calls sinks `j..` get for message `k`, up to and including the first that throws. */
  function SinkScript(c: Config, k: nat, j: nat): seq<Event>
    decreases c.sinks - j
  {
    if j >= c.sinks then []
    else if !c.shouldLog(k, j) then [SinkSkipped(k, j)] + SinkScript(c, k, j + 1)
    else if c.sinkThrows(k, j) then [SinkThrew(k, j)]
    else [SinkLogged(k, j)] + SinkScript(c, k, j + 1)
  }

  function MessageScript(c: Config, k: nat, msg: Message): seq<Event> {
    if !msg.Log? then [FlushWanted(k)]
    else if c.formatThrows(k) then [FormatThrew(k)]
    else [Formatted(k)] + SinkScript(c, k, 0)
  }

  /** The calls owed to tickets `0..n`, in ticket order. */
  function Script(c: Config, tickets: seq<Ticket<Message>>, n: nat): seq<Event>
    requires n <= |tickets|
  {
    if n == 0 then [] else Script(c, tickets, n - 1) + MessageScript(c, n - 1, tickets[n - 1].item)
  }

  predicate IsFlushCall(e: Event) {
    e.SinkFlushed? || e.FlushThrew? || e.FlushDone?
  }

  /** The transcript without the flushing of sinks. */
  function Handled(out: seq<Event>): seq<Event> {
    if out == [] then []
    else
      var last := out[|out| - 1];
      Handled(out[..|out| - 1]) + if IsFlushCall(last) then [] else [last]
  }

  /** A flush was asked for and no completed flush has followed. */
  predicate FlushPending(out: seq<Event>) {
    out != [] &&
    var last := out[|out| - 1];
    last.FlushWanted? || (!last.FlushDone? && FlushPending(out[..|out| - 1]))
  }

  /** One call of `flush` on each of the sinks `0..j`. */
  function Sweep(j: nat): seq<Event> {
    seq(j, i requires 0 <= i => SinkFlushed(i))
  }

  ghost predicate EndsWith(out: seq<Event>, tail: seq<Event>) {
    |tail| <= |out| && out[|out| - |tail|..] == tail
  }

  // ---- the invariant ---------------------------------------------------------------------------

  /** The calls still owed for the message the worker is holding. */
  function Owed(c: Config, s: System): seq<Event> {
    match s.worker
    case Formatting(k, msg) => MessageScript(c, k, msg)
    case Sinking(k, _, j) => SinkScript(c, k, j)
    case Dequeuing =>
      (match At(s.q, WORKER)
       case DeqMove(k) => if k < |s.q.tickets| then MessageScript(c, k, s.q.tickets[k].item) else []
       case DeqRelease(k, msg) => MessageScript(c, k, msg)
       case DeqTrue(k, msg) => MessageScript(c, k, msg)
       case _ => [])
    case _ => []
  }

  predicate IsDequeuePc(pc: Pc<Message>) {
    || pc.DeqLoadPos? || pc.DeqLoadSeq? || pc.DeqCas? || pc.DeqMove?
    || pc.DeqRelease? || pc.DeqTrue? || pc.DeqFalse?
  }

  /** Only the worker dequeues, and it does nothing else with the queue. */
  ghost predicate OneConsumer(s: System) {
    && (forall t: ThreadId | t != WORKER :: !IsDequeuePc(At(s.q, t)))
    && (if s.worker == Dequeuing then IsDequeuePc(At(s.q, WORKER)) else At(s.q, WORKER) == Idle)
  }

  /** The message in the worker's hands is the last one taken. */
  ghost predicate HoldsNewest(s: System)
    requires |s.q.tickets| >= s.q.dequeuePos
  {
    && (s.worker.Formatting? || s.worker.Sinking? ==>
          && s.q.dequeuePos == s.worker.ticket + 1 && s.worker.msg.Log?
          && s.q.tickets[s.worker.ticket].item == s.worker.msg)
    && (At(s.q, WORKER).DeqMove? || At(s.q, WORKER).DeqRelease? || At(s.q, WORKER).DeqTrue? ==>
          s.q.dequeuePos == At(s.q, WORKER).pos + 1)
    && (s.terminateRequested ==> s.flushRequested || s.worker.Deciding? || s.worker.Exited?)
  }

  ghost predicate TerminateSeen(tickets: seq<Ticket<Message>>, n: nat) {
    exists k :: 0 <= k < n <= |tickets| && tickets[k].item == Terminate
  }

  ghost predicate FlushesComplete(c: Config, out: seq<Event>) {
    forall i | 0 <= i < |out| && out[i] == FlushDone :: EndsWith(out[..i], Sweep(c.sinks))
  }

  ghost predicate FlushState(c: Config, s: System) {
    && (s.flushRequested <==> FlushPending(s.out))
    && FlushesComplete(c, s.out)
    && (s.worker.Flushing? ==> s.worker.next <= c.sinks && EndsWith(s.out, Sweep(s.worker.next)))
    && ((s.worker.Deciding? && s.terminateRequested) || s.worker.Exited? ==>
          s.terminateRequested && !s.flushRequested && EndsWith(s.out, Sweep(c.sinks) + [FlushDone]))
  }

  /** The worker's side: what it has done and still owes is what the tickets taken ask for. */
  ghost predicate Books(c: Config, s: System) {
    && s.q.dequeuePos <= |s.q.tickets|
    && OneConsumer(s)
    && HoldsNewest(s)
    && Handled(s.out) + Owed(c, s) == Script(c, s.q.tickets, s.q.dequeuePos)
    && (s.terminateRequested ==> TerminateSeen(s.q.tickets, s.q.dequeuePos))
    && FlushState(c, s)
  }

  ghost predicate SystemInv(c: Config, s: System) {
    Inv(s.q) && Books(c, s)
  }
}
