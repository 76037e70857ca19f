# A verified model of the logging stack and its message framing

This project models, in Dafny, the logic under the client's logging calls and its message reader, and
proves what that logic promises:

* **The queue** (`bit_mask`, `mpmc_queue`, `mpmc_invariant`, `mpmc_runs`, `bounded_queue`). The bounded
  multi-producer multi-consumer ring as a machine of single memory accesses: any number of threads, any
  interleaving, spurious failures of the weak compare-and-swap. The invariant follows every ticket
  through its life (writing, published, reading, released). `bounded_queue` is the same code run by one
  thread, as a class over its array.
* **The asynchronous worker** (`async_worker`, `async_invariant`, `async_runs`, `worker_runs`). Clients push
  into that queue while one worker pops, formats, calls the sinks, flushes and ends. Formatter and sinks may
  throw at any call. `worker_runs` is what the worker does when it is left alone.
* **Integer formatting** (`numerals`, `count_digits`, `format_decimal`, `format_int`, `memory_buffer`,
  `write_int`, `integer_texts`, `parts`, `arg_list`). Digit counting, printing two digits at a time,
  grouping, layout in a growing buffer, parsing back, and the packed argument list. `numerals` is the
  reference everything is measured against: the only digit sequence without leading zeros that has the
  value. `integer_texts` says what the written fields look like, character by character; `parts` follows a
  buffer through a run of texts and integers.
* **Format strings** (`formatter_base`, `rendering`, `output_pieces`, `basic_formatter`, `format_runs`,
  `format_specs`, `printf_formatter`, `printf_runs`, `printf_specs`, `format_texts`, `field_texts`,
  `print_texts`, `char_conversions`).
  Both formatters as loops over a C string that thread one indexing state over a packed argument list;
  their output is a list of texts and fields, each field with the argument it fetched and its
  specification. `output_pieces` holds the loop they share, `rendering` how each argument is shown,
  `format_texts` the text a whole run writes, `field_texts` and `print_texts` what fields and conversions
  come to for each kind of argument, `char_conversions` what printf makes of characters.
* **The rotating file sink** (`rotating_sink`), over a map from file names to contents, with remove,
  rename, open and write allowed to fail.
* **The pattern formatter** (`pattern_formatter`, `pattern_expansions`, `pattern_meanings`): compiled patterns
  against a direct reading of the pattern, and what each flag shows.
* **Message framing** (`message`, `connection`): the message class over its fixed byte array, and the
  read half of a connection fed with bytes in arbitrary pieces.

`options` and `arithmetic` hold what several of these share. Classes stand where the source updates
objects in place, methods with loops where it loops; each is proved against a specification function, and
the theorems are about those functions and about runs of the machines.

## Assumptions

* Queue steps are sequentially consistent and positions are unbounded naturals; real positions stay below
  2^63. Nothing is said about lock-free progress.
* Time, sleeping and yielding are not steps; whether a flush interval has expired is an input of a step.
* Delivery needs the `block_retry` policy. With `discard_log_msg` a push may drop its message, a flush or
  terminate message included (`AsyncRuns.TerminateMayBeDropped`).
* Which messages make the formatter or a sink throw is a fixed but arbitrary choice for each ticket and
  sink; each flush call may throw or not on its own. The error handler and the worker callbacks do not throw.
* File contents are what was written; nobody else touches the sink's files.
* Calendar fields are C++ ints that index the name tables, and adding 1900 to the year does not overflow.

## Where code and comments differ

The model follows the code.

* `client/spdlog/details/async_log_helper.h:264` says that `flush(true)` returns after the flush message
  was processed. The code waits until tickets are claimed (`FlushWaitMeansTaken`);
  `FlushWaitMayEndUnflushed` is a run in which no sink has been flushed at that point, and
  `FlushWaitMeansProcessedIff` says exactly when the request has been processed and the sinks flushed.
* `parse_nonnegative_int` means to detect wrap-around. Its test misses some numerals above UINT_MAX
  (`FiveThousandMillionAccepted`); `VerdictIff` and `BigNumeralRefusedIff` say exactly which.
* `prepare_int_buffer` reserves only the width before it takes the place for the digits of a left-aligned
  number with a precision; the later fill can move the storage. `WriteInt` states the field under the
  condition `StaysPut`, which `PrepareIntBuffer` shows to be exact; `SomeFieldMoves` is a field that
  violates it and `SomeRunMoves` a run. Whole runs carry the condition along as `InPlace`; brace runs
  meet it but for C strings shown as pointers (`BracesStayInPlace`).
* `Message(data, len)` stores its header before the length is set, so the length reaches the wire only
  with the first setter (`WithoutSetter`). It accepts more data than its buffer holds and copies past it:
  above 4076 bytes `Message.From` promises no valid message.
* A brace specification looks for an alignment one character too far when it is empty (`EmptySpecReads`
  says exactly when it means the defaults, `AlignmentBehindField` shows a run).
* Under printf a char is written twice, as a number and as a character, iff the modifier `L` stands before
  a type other than `c` and `s` (`ComesTwiceIff`; `%Ld` in `LongCharComesTwice`). Without it the char
  becomes a number first and is written once (`BareCharComesOnce`).
* `%I` is documented as 1-12; the code shows 00 for midnight (`TwelveHourClock`, `MidnightIsZero`). `%D` is
  documented as `%m/%d/%y`; the year flag that exists is `%C`, so it never is
  (`ShortDateIsDocumentedIff`, `ShortDateIsNotDocumented`, `ShortDateExpands`).
* A refused header calls the error path with a success code, so the connection neither closes nor reads
  on (`OnReadHead`, `Receive`).

## Model

| member | source | states |
|---|---|---|
| `BitMask.SizeAcceptedIff` | client/spdlog/details/mpmc_bounded_q.h:67-69 | the constructor test `n >= 2 && (n & (n - 1)) == 0` accepts exactly the powers of two from 2 up |
| `BitMask.MaskIsModulo` | client/spdlog/details/mpmc_bounded_q.h:89 | for such a size `pos & mask` is `pos mod N`, for every position |
| `MpmcQueue.ApproxSize` | client/spdlog/details/mpmc_bounded_q.h:140-143 | the value computed from two loads is at most N, is zero only if the loads say so, and is their difference when that lies within a lap |
| `MpmcQueue.SlotsDistinct` | client/spdlog/details/mpmc_bounded_q.h:89 | two different positions within one lap never share a cell |
| `MpmcInvariant.NextKeepsInv` | client/spdlog/details/mpmc_bounded_q.h:83-134 | every step of every thread (loads, spurious or genuine CAS failures, winning CAS, data move, sequence store, return) keeps the invariant tying each cell to the life of its ticket |
| `MpmcInvariant.WinnerIsPublished` | client/spdlog/details/mpmc_bounded_q.h:121-131 | a consumer that wins the CAS of ticket k finds ticket k published, though it read the sequence some steps earlier |
| `MpmcInvariant.EveryThreadCanStep` | client/spdlog/details/mpmc_bounded_q.h:83-144 | no reachable state leaves a thread without a next step |
| `MpmcRuns.RunKeepsInv` | client/spdlog/details/mpmc_bounded_q.h:56-144 | the invariant holds in every reachable state of every run, for any number of producers and consumers |
| `MpmcRuns.DequeuedIsEnqueued` | client/spdlog/details/mpmc_bounded_q.h:83-134 | a consumer of ticket k returns exactly what the producer of ticket k was given, and `dequeue_pos <= enqueue_pos <= dequeue_pos + N` always |
| `MpmcRuns.ExclusiveCell` | client/spdlog/details/mpmc_bounded_q.h:94-107 | between a winning CAS and its sequence store two threads never work on the same cell |
| `MpmcRuns.EnqueueFailsIffFull` | client/spdlog/details/mpmc_bounded_q.h:86-105 | `enqueue` gives up at a sequence load if and only if its position is still `enqueue_pos_` and ticket pos-N is not released, however stale the position |
| `MpmcRuns.DequeueFailsIffEmpty` | client/spdlog/details/mpmc_bounded_q.h:114-130 | `dequeue` gives up at a sequence load if and only if its position is still `dequeue_pos_` and that ticket is not published |
| `MpmcRuns.RunExtends` | client/spdlog/details/mpmc_bounded_q.h:83-134 | along a run positions only grow, items of tickets never change and phases only advance |
| `MpmcRuns.TicketReturnedOnce` | client/spdlog/details/mpmc_bounded_q.h:111-134 | no two completed dequeues anywhere in a run return from the same ticket |
| `MpmcRuns.TicketsFollowRealTime` | client/spdlog/details/mpmc_bounded_q.h:86-108 | an enqueue that begins after a moment gets a ticket no lower than the position at that moment, and its winning CAS adds exactly that ticket |
| `MpmcRuns.NothingLost` | client/spdlog/details/mpmc_bounded_q.h:83-134 | when no call is half-way, tickets below `dequeue_pos_` were returned with their own item and the others sit published in their own cells |
| `MpmcRuns.StepRefinesFifo` | client/spdlog/details/mpmc_bounded_q.h:83-134 | seen from outside every step is a step of a bounded FIFO queue: the two winning CASes append to a queue with room and remove the oldest item, no other step shows |
| `MpmcRuns.ApproxSizeMeaning` | client/spdlog/details/mpmc_bounded_q.h:136-144 | the result is between the count at the first load and N; zero means both positions were equal at every moment between the two loads; it is exact when nobody enqueues in between |
| `BoundedQueue.MpmcBoundedQueue.constructor` | client/spdlog/details/mpmc_bounded_q.h:62-75 | an accepted size gives an empty queue whose cell i has sequence i |
| `BoundedQueue.MpmcBoundedQueue.Create` | client/spdlog/details/mpmc_bounded_q.h:67-69 | every other size is refused |
| `BoundedQueue.MpmcBoundedQueue.Enqueue` | client/spdlog/details/mpmc_bounded_q.h:83-109 | run alone: succeeds iff fewer than N items are held, then appends, else changes nothing; any number of spurious CAS failures |
| `BoundedQueue.MpmcBoundedQueue.Dequeue` | client/spdlog/details/mpmc_bounded_q.h:111-134 | run alone: removes and returns the oldest item, or fails and changes nothing when empty |
| `BoundedQueue.MpmcBoundedQueue.ApproxSize` | client/spdlog/details/mpmc_bounded_q.h:136-144 | run alone: the exact number of items |
| `AsyncInvariant.SystemStepKeepsInv` | client/spdlog/details/async_log_helper.h:244-350 | every step of any client or of the worker keeps the invariant: the transcript is what the tickets taken so far are owed, the flags say what is pending |
| `AsyncRuns.PlayKeepsInv` | client/spdlog/details/async_log_helper.h:244-350 | so the invariant holds after every run |
| `AsyncRuns.ExitedWorkerIsDone` | client/spdlog/details/async_log_helper.h:267-350 | when the worker exits it has taken a terminate message, made exactly the calls owed to every ticket taken (in order, whatever threw), and its last calls are one complete flush of all sinks with nothing pending |
| `AsyncRuns.EarlierMessagesAreHandled` | client/spdlog/details/async_log_helper.h:223-235 | every ticket claimed before any terminate message was claimed is among those handled at exit |
| `AsyncRuns.ExactlyOnceInOrder` | client/spdlog/details/async_log_helper.h:295-326 | at exit the formatter has been called on the log messages of the tickets taken, each once and in ticket order, and each sink has completed exactly those nothing threw on before it |
| `AsyncRuns.LogTicketsAscend` | client/spdlog/details/async_log_helper.h:313-325 | those ticket lists are strictly ascending and contain every log ticket below the bound and no other |
| `AsyncRuns.OlderLogsAreDone` | client/spdlog/details/async_log_helper.h:295-326 | in every reachable state, a log message below the newest one taken has been formatted, and it has reached exactly those sinks that want it and that nothing threw on before |
| `AsyncRuns.FlushRequestsStayPending` | client/spdlog/details/async_log_helper.h:304-311 | in every reachable state `_flush_requested` is set iff a dequeued flush request has no completed flush after it, and each completed flush is one call to every sink in turn |
| `AsyncRuns.NotPendingMeansAnswered` | client/spdlog/details/async_log_helper.h:340-350 | when nothing is pending every request in the transcript is followed by a completed flush |
| `WorkerRuns.EmptyQueueFlushes` | client/spdlog/details/async_log_helper.h:336-350 | as a run: a worker that finds the queue empty flushes every sink in turn and completes it, if a flush was asked for or the flush interval has passed, and otherwise flushes nothing |
| `WorkerRuns.HandlesAll` | client/spdlog/details/async_log_helper.h:267-326 | left alone, the worker deals with every message in the queue, whatever throws |
| `WorkerRuns.WorkerComesToItsEnd` | client/spdlog/details/async_log_helper.h:267-350 | and if a terminate message stands in the queue it comes to its end, everything dealt with: no state leaves it circling |
| `WorkerRuns.Ends` | client/spdlog/details/async_log_helper.h:340-350 | its last calls being one flush of all sinks |
| `AsyncRuns.FlushWaitMeansTaken` | client/spdlog/details/async_log_helper.h:259-265 | when the wait of `flush(true)` ends, every ticket claimed so far has been taken by the worker |
| `AsyncRuns.FlushWaitMeansLogged` | client/spdlog/details/async_log_helper.h:259-265 | so when the wait of `flush(true)` ends, every log message with a ticket below another one, such as the caller's flush request, has been formatted and has reached the sinks it can reach |
| `AsyncRuns.FlushWaitMeansProcessedIff` | client/spdlog/details/async_log_helper.h:259-265 | the exact meaning of that moment: a flush request taken by then has been processed iff the worker is not still holding it, only the newest ticket can be held, and every processed request has been answered by a complete flush iff `_flush_requested` is down |
| `AsyncRuns.RequestProcessedIff` | client/spdlog/details/async_log_helper.h:304-311 | in every reachable state a taken flush or terminate request has been acted on iff the worker is past the dequeue that returned it |
| `AsyncRuns.FlushWaitMayEndUnflushed` | client/spdlog/details/async_log_helper.h:263-264 | a reachable run in which the wait ends while no sink has been flushed and the request not even read |
| `AsyncRuns.TerminateMayBeDropped` | client/spdlog/details/async_log_helper.h:223-235 | under `discard_log_msg` even the terminate message can be lost: a reachable run in which it is refused by a full queue, the push returns and no ticket carries it |
| `AsyncRuns.PushedMessageHasTicket` | client/spdlog/details/async_log_helper.h:244-257 | under `block_retry`, when `push_msg` returns, exactly one ticket claimed since the call began was won by the calling thread, and it carries the message |
| `AsyncRuns.PushesShareNoTicket` | client/spdlog/details/async_log_helper.h:244-257 | pushes by different threads, or one after the other by the same thread, have different tickets, equal messages included |
| `AsyncRuns.LoggedBeforeExit` | client/spdlog/details/async_log_helper.h:223-257 | under `block_retry`, a message whose push returned before any terminate message was claimed is formatted, under the ticket that is its own, by the time the worker exits |
| `Numerals.ValueOfDigits` | client/spdlog/fmt/bundled/format.h:937-938 | the reference: the digit sequence of n has value n |
| `Numerals.DigitsUnique` | client/spdlog/fmt/bundled/format.h:937-938 | and is the only one without leading zeros |
| `CountDigits.TableIsPowers` | client/spdlog/fmt/bundled/format.cc:261-285 | entry t of the power tables is 10^t (entry 0 is zero) |
| `CountDigits.IndexInTable` | client/spdlog/fmt/bundled/format.h:939-968 | the index `bits*1233 >> 12` never leaves the 64-bit or the 32-bit table |
| `CountDigits.IndexBrackets` | client/spdlog/fmt/bundled/format.h:942 | for every positive 64-bit n the index t has 10^(t-1) <= n < 10^(t+1) |
| `CountDigits.CountDigits64Correct` | client/spdlog/fmt/bundled/format.h:939-944 | `count_digits` is the decimal digit count of every 64-bit number, 1 for zero |
| `CountDigits.CountDigits32Correct` | client/spdlog/fmt/bundled/format.h:963-969 | the same for every 32-bit number with the shorter table |
| `CountDigits.CountDigitsFallback` | client/spdlog/fmt/bundled/format.h:946-960 | the divide-by-10000 loop computes the same digit count |
| `DecimalPrinter.TensRowsAt` | client/spdlog/fmt/bundled/format.cc:253-259 | characters 2k and 2k+1 of the digit table are the two digits of k |
| `DecimalPrinter.FormatDecimal` | client/spdlog/fmt/bundled/format.h:998-1024 | writes the rendering of the value, ending at the given place, and touches nothing else in the buffer |
| `DecimalPrinter.RenderMeaning` | client/spdlog/fmt/bundled/format.h:977-1024 | that rendering is the canonical decimal cut into groups joined by the separator, and has d + s*((d-1)/3) characters for d digits and a separator of s |
| `DecimalPrinter.GroupsShape` | client/spdlog/fmt/bundled/format.h:977-996 | the groups spell the numeral again, the first has one to three digits and every later one three |
| `DecimalPrinter.RenderPlain` | client/spdlog/fmt/bundled/format.h:1026-1030 | without a separator it is the plain decimal |
| `FormatIntegers.FormatInt.Signed` | client/spdlog/fmt/bundled/format.h:3359-3367 | the canonical signed decimal of every 64-bit signed number, the most negative included, inside a 22-byte buffer |
| `FormatIntegers.FormatInt.Unsigned` | client/spdlog/fmt/bundled/format.h:3373-3375 | the canonical decimal of every 64-bit unsigned number |
| `FormatIntegers.FormatInt.Size` | client/spdlog/fmt/bundled/format.h:3377-3380 | the length of the text |
| `FormatIntegers.ParseNonnegativeInt` | client/spdlog/fmt/bundled/format.h:3600-3618 | reads exactly the run of digits and gives the verdict of the wrap-tested 32-bit accumulation |
| `FormatIntegers.VerdictUpToUintMax` | client/spdlog/fmt/bundled/format.h:3605-3617 | numerals up to UINT_MAX, leading zeros included, are read exactly and refused above INT_MAX |
| `FormatIntegers.VerdictIff` | client/spdlog/fmt/bundled/format.h:3600-3618 | every numeral of any length: it is read iff its remainder modulo 2^32 never falls from one digit to the next and ends within INT_MAX, and then as that remainder |
| `FormatIntegers.BigNumeralRefusedIff` | client/spdlog/fmt/bundled/format.h:3606-3617 | so a numeral above INT_MAX is refused, as intended, iff that remainder falls at some digit or ends above INT_MAX |
| `FormatIntegers.FiveThousandMillionAccepted` | client/spdlog/fmt/bundled/format.h:3606-3610 | the wrap test misses 5000000000, which is read as 705032704 |
| `FormatIntegers.ParseInvertsPrint` | client/spdlog/fmt/bundled/format.h:3601-3618 | the printed form of n reads back as n up to INT_MAX and is refused for the larger unsigned ints |
| `Buffers.CopyingIsLinear` | client/spdlog/fmt/bundled/format.h:797-814 | over any run all grows together copy at most 3*(capacity - initial), and capacity is the initial one or at most 1.5 times the largest request |
| `Buffers.OperationsSound` | client/spdlog/fmt/bundled/format.h:693-735 | every run of resizes, reserves, pushes, appends and clears makes requests of the kind that bound is about |
| `Buffers.MemoryBuffer.constructor` | client/spdlog/fmt/bundled/format.h:670-671 | an empty buffer of the initial capacity |
| `Buffers.MemoryBuffer.Grow` | client/spdlog/fmt/bundled/format.h:797-814 | new storage of the larger of 1.5 times the capacity and the request, same contents |
| `Buffers.MemoryBuffer.Reserve` | client/spdlog/fmt/bundled/format.h:704-707 | same contents, grown storage only if needed |
| `Buffers.MemoryBuffer.Resize` | client/spdlog/fmt/bundled/format.h:693-697 | keeps the common prefix |
| `Buffers.MemoryBuffer.PushBack` | client/spdlog/fmt/bundled/format.h:711-715 | appends one element |
| `Buffers.MemoryBuffer.Append` | client/spdlog/fmt/bundled/format.h:725-735 | appends a sequence |
| `Buffers.MemoryBuffer.Clear` | client/spdlog/fmt/bundled/format.h:709 | empties the buffer and keeps its storage |
| `Buffers.MemoryBuffer.Perform` | client/spdlog/fmt/bundled/format.h:693-735 | over any run of operations the buffer goes through the same contents as a plain sequence, and the bound on copying holds of it |
| `WriteIntegers.FrameWidth` | client/spdlog/fmt/bundled/format.h:2798-2850 | a field is as wide as asked for, or as its prefix and the larger of precision and digits need |
| `WriteIntegers.PrepareIntBuffer` | client/spdlog/fmt/bundled/format.h:2789-2851 | appends fill, prefix and zeros around room for the digits in the order the alignment dictates, asking for room in one request or three; the place returned stays in the buffer iff `StaysPut` |
| `WriteIntegers.EnoughRoomStaysPut` | client/spdlog/fmt/bundled/format.h:2808-2818 | room for size + width from the start is enough for that |
| `WriteIntegers.SomeFieldMoves` | client/spdlog/fmt/bundled/format.h:2808-2818 | `%-6.3d` of one digit after 497 characters in a writer's 500 violates it |
| `WriteIntegers.LayPlain` | client/spdlog/fmt/bundled/format.h:2828-2850 | left, centred, numeric and right layout of a padded field, cell by cell |
| `WriteIntegers.CountInBase` | client/spdlog/fmt/bundled/format.h:2881-2884 | the shift loop counts the digits of the minimal numeral in base 2, 8 or 16 |
| `WriteIntegers.WriteInBase` | client/spdlog/fmt/bundled/format.h:2890-2892 | the backward loop writes that numeral and nothing else |
| `WriteIntegers.CountKind` | client/spdlog/fmt/bundled/format.h:2868-2934 | the number of characters each presentation type needs, separators included |
| `WriteIntegers.UnsignedMagnitude` | client/spdlog/fmt/bundled/format.h:2857-2863 | negating in unsigned arithmetic gives the magnitude of every value of every width |
| `WriteIntegers.WriteInt` | client/spdlog/fmt/bundled/format.h:2855-2944 | unknown types are refused; otherwise the buffer gains the framed field and has grown as `RoomAfterInt` says, and gains exactly `fill prefix zeros digits fill` whenever the digits' place stays put |
| `IntegerTexts.DigitsByType` | client/spdlog/fmt/bundled/format.h:2868-2934 | which base and which case a type letter writes in, by reading the digits back character by character: decimal for none and `d`, hexadecimal in small letters for `x` and capitals for `X`, octal for `o`, binary for `b` and `B`, decimal in groups for `n`, without leading zeros |
| `IntegerTexts.WritesIff` | client/spdlog/fmt/bundled/format.h:2868-2934 | there is exactly one such text |
| `IntegerTexts.KnownTypes` | client/spdlog/fmt/bundled/format.h:2868-2934 | and these are the types |
| `IntegerTexts.SignIs` | client/spdlog/fmt/bundled/format.h:2857-2867 | `-` for negative numbers, `+` or a blank for the others if the flags ask for it |
| `IntegerTexts.BaseIs` | client/spdlog/fmt/bundled/format.h:2876-2917 | the alternate form: `0x`, `0X`, `0b`, `0B`, `0`, nothing for decimals |
| `IntegerTexts.IntegerLaidOut` | client/spdlog/fmt/bundled/format.h:2828-2850 | the field: sign, base and digits together, the fill behind, in front, around, or between prefix and digits as the alignment says, and none if they fill it |
| `IntegerTexts.PreciseLaidOut` | client/spdlog/fmt/bundled/format.h:2798-2826 | with a precision: as many zeros as it takes in front of the digits, an octal prefix counting as one, and the fill behind if aligned left and in front otherwise |
| `Parts.PartsJoin` | client/spdlog/fmt/bundled/format.h:2789-2944 | texts and integers written one after the other: text, room and being in place of a run follow from those of its two halves |
| `Parts.EnoughRoomInPlace` | client/spdlog/fmt/bundled/format.h:2808-2818 | with room for the whole text from the start, every digit goes where it belongs and nothing grows |
| `Parts.NothingMoves` | client/spdlog/fmt/bundled/format.h:2808-2850 | without a left-aligned integer with a precision, the same from any buffer |
| `Parts.SomeRunMoves` | client/spdlog/fmt/bundled/format.h:2808-2818 | and 497 characters followed by `%-6.3d` of a digit do lose it, from a writer's empty buffer |
| `ArgLists.PackedTypeAt` | client/spdlog/fmt/bundled/format.h:2247-2251 | four bits per argument: the packed word gives argument i's type for i < n, NONE above, and arguments past the sixteenth drop out |
| `ArgLists.TypeAtIsKind` | client/spdlog/fmt/bundled/format.h:1519-1524 | the same through `ArgList::type` for any number of arguments |
| `ArgLists.At` | client/spdlog/fmt/bundled/format.h:1493-1517 | `operator[]` returns argument i when i < n and NONE otherwise, across the switch at 16 to the terminated array, never reading past either |
| `FormatterBases.NumberReadsBack` | client/spdlog/fmt/bundled/format.h:3600-3618 | a printed number inside a format string is read back up to the character behind it |
| `FormatterBases.FormatterBase.DoGetArg` | client/spdlog/fmt/bundled/format.cc:449-463 | looked up in the packed list, through its four-bit types or its terminated array, and followed if named: argument i of the call, or the out-of-range fault |
| `FormatterBases.FormatterBase.NextArg` | client/spdlog/fmt/bundled/format.h:2060-2065 | hands out argument `next_arg_index_` and advances; refused in manual mode, out of range past the last argument |
| `FormatterBases.FormatterBase.CheckNoAutoIndex` | client/spdlog/fmt/bundled/format.h:2073-2080 | the switch to manual mode succeeds iff nothing has been fetched automatically, and then sticks |
| `FormatterBases.FormatterBase.GetArg` | client/spdlog/fmt/bundled/format.h:2069-2071 | the argument at the index, in manual mode from then on; refused after an automatic fetch |
| `FormatterBases.FormatterBase.GetNamed` | client/spdlog/fmt/bundled/format.h:3641-3651 | the fetch by name through the map: the first argument with that name, in manual mode, with both faults |
| `FormatterBases.FirstNamed` | client/spdlog/fmt/bundled/format.h:1926-1934 | what a lookup by name should find: the first argument of the name, none only if there is none |
| `FormatterBases.FormatterBase.InitMap` | client/spdlog/fmt/bundled/format.cc:399-442 | walking the packed list in either form, past the sixteenth type too, the map gets exactly the named arguments with their values, in order |
| `FormatterBases.FormatterBase.Find` | client/spdlog/fmt/bundled/format.h:1926-1934 | the loop returns the first pair of the name |
| `FormatterBases.PairsFindFirstNamed` | client/spdlog/fmt/bundled/format.h:1924-1934 | and so a lookup in the map finds the first argument of that name |
| `FormatterBases.ServedIff` | client/spdlog/fmt/bundled/format.h:2043-2080 | a run of requests is served iff it is all automatic and no longer than the arguments, or all manual with every designated argument there |
| `FormatterBases.NoMixing` | client/spdlog/fmt/bundled/format.h:2043-2080 | no run of fetches mixes automatic and manual |
| `BasicFormatters.BasicFormatter.ParseArgIndex` | client/spdlog/fmt/bundled/format.h:3654-3663 | index or automatic fetch, with the masking of faults by `invalid format string` |
| `BasicFormatters.BasicFormatter.ParseArgName` | client/spdlog/fmt/bundled/format.h:3666-3678 | the longest name from here on, fetched by name |
| `BasicFormatters.BasicFormatter.ParseWidth` | client/spdlog/fmt/bundled/format.h:3756-3789 | literal or nested width, with every fault |
| `BasicFormatters.BasicFormatter.ParsePrecision` | client/spdlog/fmt/bundled/format.h:3791-3835 | literal or nested precision, and the refusal for integers and pointers |
| `BasicFormatters.BasicFormatter.ParseSpec` | client/spdlog/fmt/bundled/format.h:3681-3848 | a whole specification up to its closing brace, never reading past the terminator |
| `BasicFormatters.BasicFormatter.FormatAll` | client/spdlog/fmt/bundled/format.h:3850-3870 | the formatting loop terminates, writes exactly the pieces of the recursive reading, and fails with exactly its fault, that of showing an argument included |
| `Rendering.WriteStr` | client/spdlog/fmt/bundled/format.h:2729-2771 | a string appended in its field: whole, padded on the side its alignment leaves free |
| `Rendering.Show` | client/spdlog/fmt/bundled/format.h:1962-2040 | every argument that can be shown is, after what the buffer holds: numbers by `write_int`, strings cut by the precision, characters and bools as the type asks; the text is whole unless it is an integer whose place moves |
| `Rendering.ShowPrintf` | client/spdlog/fmt/bundled/printf.h:243-298 | the same under printf, null pointers included; a character that has kept its kind under another type than `c` is a number and then a character |
| `FormatTexts.FormatShowable` | client/spdlog/fmt/bundled/format.h:3850-3870 | a brace run that succeeds has only fields that can be shown |
| `FormatTexts.PrintShowable` | client/spdlog/fmt/bundled/printf.h:414-520 | so has a printf run: length conversions keep every number in the range of its type |
| `FormatTexts.WriteFormatted` | client/spdlog/fmt/bundled/format.h:3850-3870 | the whole of brace formatting: the buffer grows by the pieces of the recursive reading and gains their text if every integer is in place, or the run fails with its fault |
| `FormatTexts.WritePrintf` | client/spdlog/fmt/bundled/printf.h:414-520 | the whole of printf formatting, likewise |
| `FormatTexts.BracesStayInPlace` | client/spdlog/fmt/bundled/format.h:3791-3835 | in a brace run every integer is in place, whatever the buffer holds, unless a C string is shown as a pointer: the parser refuses a precision for the rest |
| `FormatTexts.BracedField` | client/spdlog/fmt/bundled/format.h:3654-3848 | a field alone, for every written specification and argument: shown as it asks, or refused with the fault of the specification or of the argument |
| `FormatTexts.BracedIntegerText` | client/spdlog/fmt/bundled/format.h:3850-3870 | `{:spec}` of an integer writes, in place, what `write_int` lays out for it, for every specification that suits the integer |
| `FormatTexts.BracedIntegerRefused` | client/spdlog/fmt/bundled/format.h:3684-3848 | every other specification fails: with its own fault, or because its type letter is none of an integer |
| `FieldTexts.ShownAs` | client/spdlog/fmt/bundled/format.h:1962-2040 | by kind of argument, exactly the type letters it can be shown as |
| `FieldTexts.SuitsIff` | client/spdlog/fmt/bundled/format.h:3705-3835 | by kind of argument, exactly the flags and precisions that suit it |
| `FieldTexts.BraceAsFill` | client/spdlog/fmt/bundled/format.h:3700-3715 | a brace cannot be a fill |
| `FieldTexts.StringLaidOut` | client/spdlog/fmt/bundled/format.h:2729-2747 | a string in its field: to the right or in the middle if asked for, else to the left |
| `FieldTexts.BracedString` | client/spdlog/fmt/bundled/format.h:2749-2771 | `{:spec}` of a string or C string: its text as far as the precision goes, in its field |
| `FieldTexts.BracedWord` | client/spdlog/fmt/bundled/format.h:1962-2027 | of a bool: `true` or `false`; of a character: itself |
| `FieldTexts.BracedAsNumber` | client/spdlog/fmt/bundled/format.h:1981-1995 | and under a type for numbers both are numbers |
| `FieldTexts.BracedPointer` | client/spdlog/fmt/bundled/format.h:2036-2040 | of a pointer: its address |
| `FieldTexts.PointerText` | client/spdlog/fmt/bundled/format.h:1945-1949 | which is `0x` and hexadecimal digits |
| `FieldTexts.IndexedArgument` | client/spdlog/fmt/bundled/format.h:3654-3663 | an index in a field, anywhere: the argument with that number counted from zero, or the fault |
| `FieldTexts.NamedArgument` | client/spdlog/fmt/bundled/format.h:3666-3678 | a name in a field, anywhere: the first argument of that name, or the fault |
| `FieldTexts.NextArgument` | client/spdlog/fmt/bundled/format.h:3654-3663 | neither: the next argument, or the fault |
| `FieldTexts.BigNumber` | client/spdlog/fmt/bundled/format.h:3600-3618 | a number above 2147483647 in a format string is too big |
| `FieldTexts.IndexedField` | client/spdlog/fmt/bundled/format.h:3850-3870 | whole runs: `{i}` shows argument i |
| `FieldTexts.NamedField` | client/spdlog/fmt/bundled/format.h:3850-3870 | and `{name}` the first argument of that name |
| `FieldTexts.NestedWidth` | client/spdlog/fmt/bundled/format.h:3759-3787 | a nested width is the next argument, with the faults for other kinds, negative and large numbers |
| `FieldTexts.NestedPrecision` | client/spdlog/fmt/bundled/format.h:3794-3830 | a nested precision likewise, refused for integers and pointers |
| `FieldTexts.LoneClosingBrace` | client/spdlog/fmt/bundled/format.h:3862-3863 | a closing brace on its own is refused |
| `FieldTexts.UnclosedField` | client/spdlog/fmt/bundled/format.h:3836-3845 | and so is a field that is not closed |
| `FieldTexts.LoneOpeningBrace` | client/spdlog/fmt/bundled/format.h:3651-3661 | an opening brace on its own is an unclosed field if there is an argument to show, an invalid format otherwise |
| `OutputPieces.ScanContinues` | client/spdlog/fmt/bundled/format.h:3850-3870 | the loop both formatters share: whatever reads the fields, fetching goes on consistently and each field shows what it fetched, in order |
| `OutputPieces.DoubledScan` | client/spdlog/fmt/bundled/format.h:3856-3861 | and a text with its special characters doubled passes through it unchanged |
| `FormatRuns.OneModePerRun` | client/spdlog/fmt/bundled/format.h:2043-2087 | a successful run used one indexing mode, nested widths and precisions included; the k-th automatic fetch got argument k; every field shows what it fetched, in order |
| `FormatRuns.DoubledBracesReproduce` | client/spdlog/fmt/bundled/format.h:3856-3861 | any text with its braces doubled is reproduced and fetches nothing |
| `FormatRuns.NestedInOrder` | client/spdlog/fmt/bundled/format.h:3759-3801 | `{:{}.{}}` takes value, width and precision from arguments 0, 1 and 2 |
| `FormatRuns.AlignmentBehindField` | client/spdlog/fmt/bundled/format.h:3693-3723 | seen in a whole run: `{:}=` aligns numerically and is refused for a character, `{}=` does neither |
| `FormatSpecs.SpecReadsBack` | client/spdlog/fmt/bundled/format.h:3684-3843 | parsing inverts writing: every fill, alignment, sign, `#`, width, precision and type comes back from its text if the argument takes it, and otherwise the parser stops with exactly the fault the argument gives; an empty text is aligned by the character behind it |
| `FormatSpecs.EmptySpecReads` | client/spdlog/fmt/bundled/format.h:3693-3723 | an empty specification in any string means the defaults iff the character behind the closing brace is no alignment character; otherwise it means the defaults with that alignment |
| `FormatSpecs.ZeroFlagIsFill` | client/spdlog/fmt/bundled/format.h:3748-3754 | a zero before the width is the fill `0` with numeric alignment, with the same fault for other arguments |
| `PrintfFormatters.ParseFlags` | client/spdlog/fmt/bundled/printf.h:343-366 | the loop reads the longest run of flags and folds it into the specification |
| `PrintfFormatters.FlagsAreASet` | client/spdlog/fmt/bundled/printf.h:343-366 | flags count as a set: order and repetition do not matter |
| `PrintfFormatters.PrintfFormatter.GetArg` | client/spdlog/fmt/bundled/printf.h:368-378 | index from one in unsigned arithmetic, or the next argument |
| `PrintfFormatters.PrintfFormatter.ParseHeader` | client/spdlog/fmt/bundled/printf.h:380-412 | index, flags and width, a leading number being either |
| `PrintfFormatters.PrintfFormatter.ParseConversion` | client/spdlog/fmt/bundled/printf.h:428-514 | width, precision, then argument; length and type; normalised argument and specification |
| `PrintfFormatters.PrintfFormatter.FormatAll` | client/spdlog/fmt/bundled/printf.h:414-520 | the loop terminates, never reads past the terminator, writes the pieces of the recursive reading and fails with its fault, that of showing an argument included |
| `PrintfRuns.OneModePerPrint` | client/spdlog/fmt/bundled/printf.h:414-520 | a successful printf run used one indexing mode, stars included, and every conversion shows what it fetched, in order |
| `PrintfRuns.NoStarBesideIndex` | client/spdlog/fmt/bundled/printf.h:405-412 | a conversion that names an index fetches nothing else, so a star beside an index never succeeds |
| `PrintfRuns.IndexZeroFails` | client/spdlog/fmt/bundled/printf.h:373-374 | index 0 wraps around and is always out of range |
| `PrintfRuns.DoubledPercentsReproduce` | client/spdlog/fmt/bundled/printf.h:420-425 | any text with its percent signs doubled is reproduced and fetches nothing |
| `PrintfRuns.ConversionMeaning` | client/spdlog/fmt/bundled/printf.h:96-152 | a length conversion keeps the number modulo a power of two and brings it into range; to an unsigned long type it keeps the argument's own width |
| `CharConversions.ComesTwiceIff` | client/spdlog/fmt/bundled/printf.h:414-514 | a conversion writes its argument twice, as a number and as a character, iff that is a char and `L` stands before a type other than `c` and `s` |
| `CharConversions.TailComesTwiceIff` | client/spdlog/fmt/bundled/printf.h:459-511 | because only `L` skips the conversion that makes a number of the char |
| `CharConversions.LongCharComesTwice` | client/spdlog/fmt/bundled/printf.h:477-514 | a run: `%Ld` of a char, or `%L` with any other type for numbers, writes the number and the character behind it |
| `CharConversions.BareCharComesOnce` | client/spdlog/fmt/bundled/printf.h:115-148 | a run: `%d` and its like write the number once, modulo 256 for the unsigned types |
| `PrintfSpecs.ConversionReadsBack` | client/spdlog/fmt/bundled/printf.h:380-448 | every conversion without stars is read as it is written: any index, any string of flags (leading zeros read as part of a number included), width and precision, and the argument is fetched last |
| `PrintfRuns.StarsInOrder` | client/spdlog/fmt/bundled/printf.h:407-448 | `%*.*d` takes width, precision and value from arguments 0, 1 and 2 |
| `PrintTexts.PercentS` | client/spdlog/fmt/bundled/printf.h:65-80 | whole runs: `%s` of every kind of argument, to the text: strings as they are, `(null)`, numbers in signed decimal, characters, `true` and `false`, addresses, `(nil)` |
| `PrintTexts.PercentNumber` | client/spdlog/fmt/bundled/printf.h:428-512 | `%hhd`, `%hd`, `%ld`, `%llx` and all their like: what remains of the number in 8, 16, 32 or 64 bits, signed for `d` and `i` alone, in the base of the letter |
| `PrintTexts.PercentBool` | client/spdlog/fmt/bundled/printf.h:105-108 | a bool under such a type is 0 or 1 |
| `PrintTexts.PercentC` | client/spdlog/fmt/bundled/printf.h:154-166 | `%c` shows the character of the lowest byte |
| `PrintTexts.PercentIndexed` | client/spdlog/fmt/bundled/printf.h:368-405 | `%i$s` shows argument i counted from one; there is none with index zero |
| `PrintTexts.FlaggedNumber` | client/spdlog/fmt/bundled/printf.h:450-458 | flags, width and precision of a number: zero fill behind the sign overriding `-`, a sign for `+` and blank, no alternate form for zero |
| `PrintTexts.FlaggedString` | client/spdlog/fmt/bundled/printf.h:450-458 | of a string: blanks, in front unless there is a `-`, and the precision cuts |
| `PrintTexts.StarWidth` | client/spdlog/fmt/bundled/printf.h:407-410 | a star takes the next argument; a negative width aligns left |
| `PrintTexts.StarPrecision` | client/spdlog/fmt/bundled/printf.h:439-441 | and a negative precision is none |
| `PrintTexts.PrintedAs` | client/spdlog/fmt/bundled/printf.h:225-298 | by kind of argument, exactly the type letters printf can show it as |
| `PrintTexts.PercentAlone` | client/spdlog/fmt/bundled/printf.h:486-491 | a percent sign at the very end is refused |
| `RotatingSink.FilenamesDistinct` | client/spdlog/sinks/file_sinks.h:99-107 | different indices have different file names |
| `RotatingSink.FilenameIs` | client/spdlog/sinks/file_sinks.h:99-107 | file 0 is the base name, file i the base name, a dot and the decimal of i |
| `RotatingSink.RotatingFileSink.Open` | client/spdlog/details/file_helper.h:46-62 | tries a fixed number of times; opens the file, emptied if asked, iff one of them succeeds, and leaves the disk alone otherwise |
| `RotatingSink.RotatingFileSink.Create` | client/spdlog/sinks/file_sinks.h:68-78 | a sink over the base file as it was, its size known, or none if the file cannot be opened |
| `RotatingSink.RotatingFileSink.ShiftOne` | client/spdlog/sinks/file_sinks.h:121-134 | one turn of the loop: file i-1 becomes file i and nothing else changes; on a failed remove or rename the rest is untouched |
| `RotatingSink.RotatingFileSink.Rotate` | client/spdlog/sinks/file_sinks.h:115-137 | file i-1 becomes file i for every i, file 0 is empty; other files are never touched; where a failed rotation stops |
| `RotatingSink.RotatingFileSink.SinkIt` | client/spdlog/sinks/file_sinks.h:82-91 | rotates iff the message would overflow, then appends it whole to file 0; `_current_size` is the size of file 0 whenever the file operations succeed; the files and the running size after a failed remove, rename, open or short write, and after the next success |
| `RotatingSink.RotatingFileSink.SinkAll` | client/spdlog/sinks/file_sinks.h:82-91 | a run of messages leaves the files of the specification the run theorems are about |
| `RotatingSink.NoRotationWhileItFits` | client/spdlog/sinks/file_sinks.h:82-91 | as long as all messages fit into the newest file nothing rotates |
| `RotatingSink.RotationWhenItDoesNot` | client/spdlog/sinks/file_sinks.h:84-137 | and the first that does not fit begins a new file, the others moving up by one |
| `RotatingSink.RunDescribes` | client/spdlog/sinks/file_sinks.h:82-137 | over any run the files are the pieces recorded for them, byte for byte |
| `RotatingSink.SurvivorsAreSuffix` | client/spdlog/sinks/file_sinks.h:82-137 | what survives, oldest file first, is a suffix of the initial contents followed by all messages, in whole messages |
| `RotatingSink.DiskIsSuffixOfHistory` | client/spdlog/sinks/file_sinks.h:82-137 | the same in bytes |
| `RotatingSink.ForeverKeepsAll` | client/spdlog/sinks/file_sinks.h:109-113 | a log without a file limit would hold everything |
| `RotatingSink.RotationKeepsNewest` | client/spdlog/sinks/file_sinks.h:109-137 | after any run the disk holds exactly the newest max_files + 1 files of that unlimited log |
| `RotatingSink.RunBoundsNewFiles` | client/spdlog/sinks/file_sinks.h:84-89 | every file begun during the run is at most max_size or a single message |
| `Patterns.PatternFormatter.constructor` | client/spdlog/details/pattern_formatter_impl.h:490-494 | the formatters are exactly what the pattern compiles to |
| `Patterns.PatternFormatter.HandleFlag` | client/spdlog/details/pattern_formatter_impl.h:525-662 | one formatter for each known flag, the two characters themselves for any other |
| `Patterns.PatternFormatter.CompilePattern` | client/spdlog/details/pattern_formatter_impl.h:496-524 | the loop compiles every pattern, literal runs gathered and a trailing `%` dropped |
| `Patterns.PatternFormatter.Format` | client/spdlog/details/pattern_formatter_impl.h:672-686 | running the compiled formatters shows the pattern read character by character, and ends the line |
| `Patterns.CompileMeansInterpret` | client/spdlog/details/pattern_formatter_impl.h:496-662 | compiling then running equals direct interpretation, for every pattern and every meaning of the flags |
| `Patterns.CompileGroups` | client/spdlog/details/pattern_formatter_impl.h:496-524 | no aggregate is empty and no two stand side by side |
| `PatternMeanings.MessageFlags` | client/spdlog/details/pattern_formatter_impl.h:370-403 | `%n` `%v` `%t` `%P` `%i`: logger name, text, thread, process, and the counter filled up to six digits |
| `PatternMeanings.LevelFlags` | client/spdlog/details/pattern_formatter_impl.h:49-66 | `%l` and `%L` by level |
| `PatternMeanings.DayFlags` | client/spdlog/details/pattern_formatter_impl.h:81-99 | `%a` and `%A` by day of the week |
| `PatternMeanings.MonthFlags` | client/spdlog/details/pattern_formatter_impl.h:101-119 | `%b`, `%h` and `%B` by month |
| `PatternMeanings.DateFlags` | client/spdlog/details/pattern_formatter_impl.h:148-192 | `%Y` `%C` `%m` `%d` in digits |
| `PatternMeanings.ClockFlags` | client/spdlog/details/pattern_formatter_impl.h:194-231 | `%H` `%I` `%M` `%S` in digits, and `%p`: `PM` from noon on |
| `PatternMeanings.FractionFlags` | client/spdlog/details/pattern_formatter_impl.h:233-273 | `%E` and `%F` spell the time since the epoch, nine digits behind the seconds; `%f` and `%e` are the first six and three of them |
| `PatternMeanings.DateAndTimeFlag` | client/spdlog/details/pattern_formatter_impl.h:137-145 | `%c` in terms of the single flags |
| `PatternMeanings.ZoneFlag` | client/spdlog/details/pattern_formatter_impl.h:312-376 | `%z`: sign, hours and minutes, the seconds dropped |
| `PatternMeanings.OtherFlags` | client/spdlog/details/pattern_formatter_impl.h:656-660 | every other character shows as it is written, with its percent sign |
| `PatternMeanings.TrailingPercent` | client/spdlog/details/pattern_formatter_impl.h:503-511 | and a percent sign at the end not at all |
| `PatternMeanings.StandardZeroPads` | client/spdlog/details/pattern_formatter_impl.h:121-134 | numbers are padded by zeros in front, the sign included |
| `PatternExpansions.ClockExpands` | client/spdlog/details/pattern_formatter_impl.h:303-310 | `%T` and `%X` read like `%H:%M:%S` in front of any further pattern |
| `PatternExpansions.HourMinuteExpands` | client/spdlog/details/pattern_formatter_impl.h:294-301 | `%R` reads like `%H:%M` |
| `PatternExpansions.Clock12Expands` | client/spdlog/details/pattern_formatter_impl.h:285-292 | `%r` reads like `%I:%M:%S %p` |
| `PatternExpansions.TwelveHourClock` | client/spdlog/details/pattern_formatter_impl.h:76-79 | `%I` is documented as 1-12: for hours of the day it is iff the hour is not 0 |
| `PatternExpansions.MidnightIsZero` | client/spdlog/details/pattern_formatter_impl.h:205-212 | at midnight it shows `00` |
| `PatternExpansions.ShortDateExpands` | client/spdlog/details/pattern_formatter_impl.h:159-166 | `%D` and `%x` read like `%m/%d/%C` |
| `PatternExpansions.ShortDateIsDocumentedIff` | client/spdlog/details/pattern_formatter_impl.h:159-166 | `%D` shows what its documented `%m/%d/%y` shows iff the year would show as `%y` |
| `PatternExpansions.ShortDateIsNotDocumented` | client/spdlog/details/pattern_formatter_impl.h:159-166 | which it never does |
| `PatternExpansions.FullExpandsIff` | client/spdlog/details/pattern_formatter_impl.h:436-481 | `%+` shows what `[%Y-%m-%d %H:%M:%S.%e] [%n] [%l] %v` shows iff none of year, day, hour, minute, second and milliseconds is negative |
| `Messages.HeaderRoundTrip` | client/common/message.hpp:22-37 | five little-endian words and back |
| `Messages.HeaderBytesRoundTrip` | client/common/message.hpp:135 | and from bytes to header to the same bytes |
| `Messages.HeaderLayout` | client/common/message.hpp:22-37 | on the wire: type, length, id, hash and error code at bytes 0, 4, 8, 12 and 16 of 20, the lowest byte first |
| `Messages.OversizeIs` | client/common/message.hpp:133-142 | a header is refused iff its second word exceeds 4076 |
| `Messages.Message.constructor` | client/common/message.hpp:40-46 | an empty message over zeroed storage |
| `Messages.Message.From` | client/common/message.hpp:48-57 | body in place, length known, but zeros where the header belongs; a valid message results iff the data fits |
| `Messages.Message.SetType` | client/common/message.hpp:59-63 | sets one field, stores the whole header, leaves the body; the first bytes are 1, 2 or 3 for request, response and notification |
| `Messages.Message.SetId` | client/common/message.hpp:65-69 | the same for the id |
| `Messages.Message.SetHash` | client/common/message.hpp:71-75 | the same for the hash |
| `Messages.Message.SetErrcode` | client/common/message.hpp:77-81 | the same for the error code |
| `Messages.Message.ParseHeader` | client/common/message.hpp:133-142 | reads the header back and accepts it iff the message fits the 4096-byte buffer |
| `Messages.FramesRoundTrip` | client/common/connection.cpp:71-150 | frames put on the wire come out as they went in, whatever bytes follow |
| `Messages.WireIsFrame` | client/common/message.hpp:103-111 | what a message puts on the wire once a setter has run is the frame of its header and body |
| `Messages.MessageArrives` | client/common/connection.cpp:71-150 | and the reader gets exactly that message back, whatever follows it |
| `Messages.DeframeKeepsBytes` | client/common/connection.cpp:71-150 | for every byte stream, the frames and what is left over spell the stream again |
| `Messages.OneReading` | client/common/connection.cpp:71-150 | and that is the only way to read it |
| `Messages.DeframeAppend` | client/common/connection.cpp:130-150 | reading may pause anywhere: later bytes only add to what was left over |
| `Messages.OversizeIsFinal` | client/common/connection.cpp:82-86 | after an oversize header nothing more is dispatched, whatever arrives |
| `Messages.CutStream` | client/common/connection.cpp:94-98 | a stream cut anywhere yields exactly the frames that end before the cut |
| `Messages.WithoutSetter` | client/common/message.hpp:48-57 | a message sent before any setter has run arrives as itself iff its body is empty |
| `Connections.Connection.Fill` | client/common/connection.cpp:136-149 | a read takes what it still wants and writes only inside the buffer |
| `Connections.Connection.OnReadHead` | client/common/connection.cpp:71-99 | a complete header is refused iff it announces more than the buffer holds; otherwise its body is read next, or an empty message dispatched at once |
| `Connections.Connection.OnReadBody` | client/common/connection.cpp:101-116 | a complete body is dispatched with its header and the next header awaited |
| `Connections.Connection.Meaning` | client/common/connection.cpp:71-150 | at every moment what has been dispatched is what the stream so far means, and reading has stopped iff an oversize header leads the rest |
| `Connections.Connection.Receive` | client/common/connection.cpp:130-150 | however the bytes are cut into pieces, exactly the frames of the whole stream are dispatched, in order |
| `Connections.Connection.OnError` | client/common/connection.cpp:118-128 | a failed read closes the connection and dispatches nothing |

## Left out

- Sockets, boost::asio, threads, timers: reads are a byte stream cut into pieces, steps are chosen freely.
- The send half of `Connection` (client/common/connection.cpp:152-196): it does not queue while a write is in flight and resends from the body with the full length, so ordered delivery is not what it does.
- `Rpcchannel`, `Dispatcher`, `Singleton`, the logger registry: declarations, map lookups and thin wrappers.
- C++ memory orders, wrap-around of positions at 2^63, lock-free progress.
- The text of floating-point numbers is a parameter; wide characters, custom argument types, Windows branches; the locale's separator is a parameter.
- Output written before a fault: the loops state the whole output of successful runs and the fault of failing ones.
- FormatTexts.WriteFormatted: shows the pieces once the run has succeeded, where the source shows each as it is read; and a floating-point number is taken to grow the buffer as appending its text would.
- WriteIntegers.WriteInt: where the digits' place moves, the storage that is gone takes the digits and the field keeps what the new storage holds there.
- FormatTexts.WritePrintf: as `WriteFormatted`.
- Pointers and strings: an address is a number, zero being null; a string's text is a value beside it.
- `MemoryBuffer` moves, `FixedBuffer`, allocator failures.
- `daily_file_sink`, console, colour, syslog and Android sinks; `localtime`, `gmtime`; the cached UTC offset of the Windows branch; the compile-time switches that drop date, time or name.
- RotatingSink.RotatingFileSink.SinkIt: the mutex and the formatting around the call; the pause between two tries to open a file.
- Messages.Message.From: the memory behind the buffer that oversize data overwrites.
- AsyncRuns.LoggedBeforeExit: says nothing about when the worker exits. That depends on scheduling; `WorkerRuns.WorkerComesToItsEnd` is the run of a worker that is left alone.
- PatternMeanings.FractionFlags: times before the epoch, whose remainders are negative.
- The older fmt copy in client/spdlog/details/format.h and format.cc, which fmt.h does not include.
- Equality with the C library's printf: the code deviates, so its own layout is the specification.
- PrintfRuns.ConversionMeaning: bools, which a conversion never changes, and arguments shown as strings are outside it.
