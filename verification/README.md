# A verified model of the cuti RPC library

cuti is an asynchronous RPC library: a leader/follower dispatcher hands client connections to a
pool of threads, and typed values travel over a textual wire format through readers and writers
that can be suspended at any byte.  This project models its hard parts in Dafny and proves what
they promise.

- **Dispatcher** (`ClientLists`, `CoreDispatching`, `DispatcherSystem`, `DispatcherCounts`,
  `DispatcherInvariant`, `DispatcherTheorems`, `DispatcherOutcomes`).  The client lists are an object changed in place;
  the whole dispatcher is a transition system in which one event is one atomic step of one thread.
  Arrivals, spurious wakeups, the choice made by `notify_one` and the outcome of handlers are left
  open.  An inductive invariant over all runs gives mutual exclusion, no lost wakeup, the agreement
  of counter and pipe, the idle count, the client lists, freedom from deadlock, the handover of the core
  lock, and bounded shutdown.
- **Wire format** (`Bytes`, `Wire`, `WireRoundTrip`, `WireGrammar`, `WireErrors`, `WireExceptions`,
  `WireFraming`).  A printer and a parser over recursive typed values; round trip, a grammar that the
  parser accepts exactly, in-band exceptions at any token boundary, and framing.
- **Step machines** (`AsyncReaders`, `DecimalDigits`, `AsyncWriters`).  The suspendable readers and
  writers as objects; every way to split the input and every pattern of output space gives what the
  parser and the printer give.
- **Calls** (`RequestHandling`, `RequestFailures`, `RpcEngine`).  The server's handler with its three failure routes,
  the client's two-track engine, and the whole call from one end to the other.
- **Index structures** (`IndexedHeap`, `ListArena`, `CircularBuffer`, with `DistinctSeqs`, `FreeStack`).  In-place
  code proved against a map, lists of sequences, and a byte sequence.
- **Buffers** (`Tickets`, `OutbufRuns`, `NbOutbuf`, `InbufRuns`, `NbInbuf`).  Each buffer object is
  proved to refine a specification without pointers and tickets' book-keeping; what a buffer promises
  is proved over all runs of the specification.
- **Scheduling** (`PollSelector`, `SchedulerRuns`, `SchedulerTheorems`, `DefaultScheduler`).  The
  scheduler object refines a function of what is registered and what is observed; the theorems about
  alarms and I/O taking turns are about all runs of it.
- **Two refinements** (`ClientCache`, and `AbsolutePath` with `PathLaws`).

## How to read the model

- Objects of the library are classes.  Their methods state the new state as a function of the old
  one; what the library promises is proved about those functions or kept as an invariant (`Valid`).
  Ghost fields hold histories (bytes accepted and delivered, polls made while an alarm was due) or the
  abstract state (the lists of an arena).
- `Wrappers.Opened` guards the body of some invariants.  The verifier treats such a predicate as a
  name, except where `Opened` is mentioned; the meaning is that of the body.
- In the dispatcher, steps that hold the internal mutex and touch only what it protects are merged
  with the acquisition of the mutex; every access to the counter, the pipe, a condition variable or
  the stop flag is a step of its own.  Readiness reported by the operating system may be stale: the
  wakeup event may be delivered without a byte in the pipe.  A pooled thread's own wakeup flag is the
  set `interrupted`; waiting in `join` for a thread is waiting until it has exited.
- Integer types of the wire are given by their maximum, so that one proof covers every width;
  an optional value is a sequence of at most one element, as on the wire; hexadecimal digits are
  combined by addition, which on disjoint bits is what `|=` does.  A read failure is a reason, and
  an arbitrary function turns reasons into texts.
- Nested subroutines of readers are a stack of frames, those of writers a stack of tasks.  `in_range`
  is an arbitrary boolean.  The buffers below readers and writers are abstracted to the input that is
  still to come and the output so far.  A remote method is a script of reads and writes
  that may throw, also within a result; on every occasion the script may be another one.
- A client, a callback and an exception are names.  What comes from outside is a parameter or a
  nondeterministic choice: the clock, answers of poll, what sinks and sources do, and the verdicts of
  the throughput checker.
- A scheduler is part of the model of a buffer as far as that buffer is concerned: the callbacks it
  holds are proved to be exactly those that the buffer's tickets name.  A script of steps leaves out what
  users may not do at that point, such as cancelling a callback that is not registered.

## Results that differ from a first reading

- A callback that is requested while an output buffer is writable comes on the next tick, even if the
  buffer has been filled in between (`OutbufRuns.CallbackOfFullBuffer`).  `NbOutbufs.NbOutbuf.Fire`
  says exactly when the callback finds the buffer writable: if it was so just before, or if the buffer
  had been waiting for its sink.  The same holds for input (`InbufRuns.CallbackOfEmptyBuffer`,
  `NbInbufs.NbInbuf.Fire`).
- A due alarm is overtaken by I/O at most once, whosever turn it is, if and only if no other registered
  alarm is due as early (`SchedulerTheorems.AtMostOnceIffNoneAsEarly`).  With `n` alarms that are due
  as early the bound is `n`, plus one if it is the turn of I/O; it holds of every run, and some run
  reaches it (`OvertakingStaysInBudget`, `BudgetIsReached`).  `LaterAlarmIsOvertakenTwice` is a run
  of the scheduler object that does.  None of this needs a monotone clock.  Which of two alarms that are due at the
  same time comes first is left open.
- In the RPC engine the test whether an exception was already recorded is redundant: the track that
  fails first cuts the other one short, so there is never a second failure (`FailuresOk`).
- The list comment of the arena's `move_element_before` holds also for an element that is moved in
  front of itself: nothing changes.

## Model

| member | source | states |
|---|---|---|
| DispatcherSafety.MutualExclusion | cuti/cuti/dispatcher.cpp:576-655 | in every reachable state at most one thread holds the core lock, and `locked_` is true exactly when one does |
| DispatcherSafety.NoLostWakeup | cuti/cuti/dispatcher.cpp:593-655 | while the core lock is free and some thread waits for it, an eligible thread (an urgent one if any is waiting, else a normal one) is awake or a notification of the right condition variable is still to come, in spite of spurious wakeups and of notifying after the mutex was released |
| DispatcherSafety.PipeMirrorsCounter | cuti/cuti/dispatcher.cpp:73-114 | bytes in the pipe plus pending writes equal one plus pending reads if the counter is positive, else pending reads; the counter is the number of urgent waiters, plus one if stop was raised |
| DispatcherSafety.PipeReadsAreSatisfiable | cuti/cuti/dispatcher.cpp:94-114 | a pool thread that blocks on reading the pipe finds a byte there, or the byte is about to be written; when run() reads it, it is there |
| DispatcherSafety.SelectorSeesTheFlag | cuti/cuti/dispatcher.cpp:404-427 | a holder inside select_client sees the flag as long as an urgent waiter sleeps or the dispatcher stops |
| DispatcherSafety.AssertsHold | cuti/cuti/dispatcher.cpp:94-114 | the asserts on the counter and on lock ownership hold in every reachable state |
| DispatcherSafety.NoAssertFails | cuti/cuti/dispatcher.cpp:593-1012 | whatever step comes next in a reachable state, the asserts about the wakeup counter, the lock and the idle count hold when it is taken |
| DispatcherSafety.IdleCountIsExact | cuti/cuti/dispatcher.cpp:1023-1081 | `n_idle_threads_` equals the number of threads without a client; the pool never exceeds its maximum; while the pool may still grow, some thread waits for requests |
| DispatcherSafety.OneThreadPerClient | cuti/cuti/dispatcher.cpp:1023-1081 | a client is handled by one thread at most; it is on the served list only and has no pending core callback |
| DispatcherSafety.NoClientForgotten | cuti/cuti/dispatcher.cpp:429-483 | a live client is on exactly one list; a monitored one has exactly one callback, a served one is the charge of some thread |
| DispatcherSafety.ConnectionLimit | cuti/cuti/dispatcher.cpp:429-483 | never more monitored clients than a non-zero `max_connections_`, most recently returned first |
| DispatcherSafety.CleanAfterRun | cuti/cuti/dispatcher.cpp:971-1012 | after run() has returned: no thread, idle count 0, flag down, pipe empty, lock free, no served client |
| DispatcherInvariant.StepKeepsInv | cuti/cuti/dispatcher.cpp:576-1081 | every event of every thread, in every interleaving, keeps the invariant that the safety results follow from |
| DispatcherInvariant.ReachableInv | cuti/cuti/dispatcher.cpp:576-1081 | the invariant holds after every run, from a fresh dispatcher with any pool and connection limits |
| DispatcherInvariant.ActKeepsLockInv | cuti/cuti/dispatcher.cpp:593-655 | one step of a thread keeps the lock's holder and the urgent waiter count exact |
| DispatcherInvariant.ActKeepsWakeupInv | cuti/cuti/dispatcher.cpp:593-655 | one step of a thread never loses the last wakeup |
| DispatcherInvariant.NotifyKeepsWakeupInv | cuti/cuti/dispatcher.cpp:635-655 | nor does a notify_one, whichever waiter it wakes |
| DispatcherInvariant.ActKeepsFlagInv | cuti/cuti/dispatcher.cpp:73-114 | raise and lower, interleaved at every access, keep counter and pipe in step; lowering never finds a zero counter |
| DispatcherInvariant.ActKeepsPoolInv | cuti/cuti/dispatcher.cpp:847-870 | adding threads and moving between idle and busy keeps the idle count |
| DispatcherInvariant.ActKeepsClientInv | cuti/cuti/dispatcher.cpp:429-557 | every step keeps served clients and threads in charge of clients in one-to-one correspondence |
| DispatcherInvariant.StartOrReturnKeepsInv | cuti/cuti/dispatcher.cpp:971-1012 | starting the pool and returning after the last join keep the invariant |
| DispatcherProgress.NeverStuck | cuti/cuti/dispatcher.cpp:593-1081 | unless a holder waits undisturbed for requests or all threads are busy, some thread can take a step of its own: no deadlock |
| DispatcherProgress.ShutdownNeverStuck | cuti/cuti/dispatcher.cpp:971-1012 | while run() shuts the dispatcher down, some thread can always take a step |
| DispatcherProgress.WorkLowersRank | cuti/cuti/dispatcher.cpp:593-1081 | every step of work lowers a bound on the work left |
| DispatcherProgress.ShutdownIsBounded | cuti/cuti/dispatcher.cpp:875-886 | the number of working steps of a shutdown is bounded by that rank plus the number of spurious wakeups |
| DispatcherProgress.LockIsHandedOver | cuti/cuti/dispatcher.cpp:635-655 | when the core lock is free and some thread wants it, then in every run, whatever the schedule and the requests that come in, some thread takes it: within a number of steps bounded by the rank and the spurious wakeups, or before nobody is bound to act |
| DispatcherProgress.RunsGoOn | cuti/cuti/dispatcher.cpp:593-1081 | from every state there are runs of every length without spurious wakeups, so the handover comes after finitely many steps |
| DispatcherOutcomes.OutcomeIsHonoured | cuti/cuti/dispatcher.cpp:430-476 | over every run, told by its events: the client that a thread selects is monitored again, as the most recent one and with a callback, when the thread resumes monitoring, exactly if its request was completed, and is gone otherwise |
| DispatcherOutcomes.OutcomeOfServed | cuti/cuti/dispatcher.cpp:1055-1081 | the same from any state in which the thread serves the client |
| DispatcherPriority.UrgentThreadsGoFirst | cuti/cuti/dispatcher.cpp:593-655 | the core lock is taken only when it is free, and by a thread without a client only if no urgent thread waits |
| DispatcherPriority.EnvironmentIsFree | cuti/cuti/dispatcher.cpp:593-1081 | what the model leaves to the environment, exactly: spurious wakeups, ways to end a request, readable clients, new connections |
| ClientLists.ExactlyOnePlace | cuti/cuti/dispatcher.cpp:404-483 | a live client is on exactly one of the two lists, once, with one callback if monitored and none if served |
| ClientLists.EvictsLeastRecent | cuti/cuti/dispatcher.cpp:429-483 | the client that is evicted is the one that returned to monitoring longest ago, and nothing else changes |
| ClientLists.ResumeKeepsValid | cuti/cuti/dispatcher.cpp:429-483 | returning a client to monitoring keeps the list invariants; it is monitored again exactly if its handler completed |
| ClientLists.AcceptKeepsValid | cuti/cuti/dispatcher.cpp:511-529 | accepting a connection keeps the list invariants and monitors the new client |
| ClientLists.LeaveMonitoringKeepsValid | cuti/cuti/dispatcher.cpp:531-557 | a readable client is served, or destroyed at end of input, and no callback names it any more |
| ClientLists.CallbacksNameMonitoredClients | cuti/cuti/dispatcher.cpp:429-557 | a core callback names a client exactly if it is monitored, so never an erased one |
| ClientLists.EventServesSelection | cuti/cuti/dispatcher.cpp:511-557 | one event moves at most the selected client to the served list |
| ClientLists.EventAffectsItsClient | cuti/cuti/dispatcher.cpp:511-580 | what every event does to the client it is about, and that it touches no other one except the one evicted for a new connection |
| CoreDispatching.CoreDispatcher.ResumeMonitoring | cuti/cuti/dispatcher.cpp:429-483 | the object's lists become what the list specification says |
| CoreDispatching.CoreDispatcher.OnListenerReady | cuti/cuti/dispatcher.cpp:511-529 | likewise for an accepted connection |
| CoreDispatching.CoreDispatcher.OnClientReadable | cuti/cuti/dispatcher.cpp:531-557 | likewise for a readable client; sets the selected client exactly if there is data; its asserts hold |
| CoreDispatching.CoreDispatcher.SelectClient | cuti/cuti/dispatcher.cpp:404-427 | the loop processes events up to the first decisive one; woken up and selected are never both set, and both are reset |
| CoreDispatching.SelectionServesExactlyOne | cuti/cuti/dispatcher.cpp:404-427 | over any such run of events exactly the returned client is added to the served list |
| CoreDispatching.ExactlyOneCallback | cuti/cuti/dispatcher.cpp:429-483 | a client with a callback is monitored and has exactly one |
| WireRoundTrip.RoundTrip | cuti/cuti/async_writers.cpp:47-435 | for every well-typed value of the recursive grammar, including the minimum of a signed type: reading what was written, followed by any rest, gives the value and leaves the trailing space and the rest |
| WireRoundTrip.DigitsOfDecimal | cuti/cuti/async_readers.cpp:107-155 | the decimal text of every number up to the maximum is read without a false overflow |
| WireRoundTrip.SignedRoundTrip | cuti/cuti/async_readers.cpp:304-345 | negative numbers, down to the minimum, survive |
| WireRoundTrip.BlobRoundTrip | cuti/cuti/async_readers.cpp:390-505 | every byte string survives escaping and unescaping |
| WireRoundTrip.IdentRoundTrip | cuti/cuti/async_readers.cpp:527-573 | every identifier survives |
| WireRoundTrip.SequenceRoundTrip | cuti/cuti/async_readers.hpp:441-516 | vectors and optionals of any depth survive |
| WireRoundTrip.TupleRoundTrip | cuti/cuti/async_readers.hpp:670-763 | tuples of any depth survive |
| WireGrammar.AcceptsExactlyTheGrammar | cuti/cuti/async_readers.cpp:64-573 | for every type and input: a value is read exactly if the input starts with a text of the grammar, and it is the value of that text |
| WireGrammar.Derive | cuti/cuti/async_readers.cpp:64-573 | nothing else is accepted: every input that is read has a derivation |
| WireGrammar.TreeIsRead | cuti/cuti/async_readers.cpp:64-573 | every text of the grammar is read: any whitespace between tokens, leading zeros, any spelling of strings |
| WireGrammar.ParsedHasType | cuti/cuti/async_readers.cpp:97-160 | whatever the input, a value that is read has the type it was read for: no overflow, one element at most in an optional, the right fields |
| WireGrammar.NumberIsRead | cuti/cuti/async_readers.cpp:107-160 | for any digits: the number, or overflow exactly if it is above the maximum, which a sign raises by one, or an error at the end of the line or input |
| WireGrammar.PiecesAreRead | cuti/cuti/async_readers.cpp:390-510 | for any sequence of plain bytes and escapes, also those that the printer never uses, the bytes they stand for |
| WireErrors.WrongStartIsRejected | cuti/cuti/async_readers.cpp:225-545 | a wrong first byte is reported and not consumed, for every kind of value |
| WireErrors.BrokenStringIsRejected | cuti/cuti/async_readers.cpp:390-510 | a string is rejected at the end of input or line, at an unknown escape, or at a bad hex digit, and right there |
| WireErrors.NameAtEndIsRejected | cuti/cuti/async_readers.cpp:546-573 | a name at the end of the line or input is rejected |
| WireErrors.SecondOptionalIsRejected | cuti/cuti/async_readers.hpp:519-545 | an optional value with a second element is rejected behind it |
| WireErrors.ExtraFieldIsRejected | cuti/cuti/async_readers.hpp:646-760 | a tuple that goes on behind its last field is rejected |
| WireErrors.EndIsNewline | cuti/cuti/async_readers.hpp:882-916 | the end-of-message checker accepts a newline behind any whitespace, and nothing else |
| WireExceptions.ExceptionReachesReader | cuti/cuti/async_writers.cpp:392-449 | output that is cut off at any token boundary and continued with an exception makes the reader fail with exactly that remote error |
| WireExceptions.MarkerRaises | cuti/cuti/async_readers.cpp:48-90 | wherever a token is expected, the exception marker raises the remote error that follows it |
| WireExceptions.FlattenTokens | cuti/cuti/async_writers.hpp:322-627 | the tokens of a value, one after the other, are its text, so that the cuts range over all of it |
| WireFraming.ParseFramed | cuti/cuti/async_readers.hpp:77-136 | no reader consumes a newline, on success or failure, and none looks beyond the first one: more input behind the line changes nothing |
| WireFraming.EndOfMessageFramed | cuti/cuti/async_readers.hpp:882-916 | nor does the end-of-message checker |
| WireFraming.DrainEndsMessage | cuti/cuti/async_readers.hpp:918-968 | the drainer consumes through the first newline, or up to the end of input |
| WireFraming.PrintHasNoNewline | cuti/cuti/async_writers.cpp:47-390 | no writer of a value emits a newline |
| WireFraming.ExceptionHasNoNewline | cuti/cuti/async_writers.cpp:437-449 | nor does the exception writer |
| AsyncReaders.Read | cuti/cuti/async_readers.cpp:107-573 | however the input is split into chunks and whenever the reader rests, it reports what the parser makes of the whole input, and leaves the buffer with what the parser leaves; so do the checker for the end of a message and the drainer |
| AsyncReaders.AsyncReader.Resume | cuti/cuti/async_readers.hpp:86-125 | any number of steps keeps what the suspended readers still denote; they stop only for lack of input or when told to rest |
| AsyncReaders.AsyncReader.SkipSpaces | cuti/cuti/async_readers.hpp:102-125 | the skipping loop, suspended anywhere, denotes the same outcome |
| AsyncReaders.AsyncReader.ReadDigits | cuti/cuti/async_readers.cpp:107-155 | likewise the digit loop, with its overflow check |
| AsyncReaders.AsyncReader.ReadHexDigits | cuti/cuti/async_readers.cpp:178-209 | likewise the hex digit loop |
| AsyncReaders.AsyncReader.ReadContents | cuti/cuti/async_readers.cpp:390-431 | likewise the string loop, which never consumes a newline |
| AsyncReaders.AsyncReader.ReadEscaped | cuti/cuti/async_readers.cpp:433-489 | likewise an escape that is split over two chunks |
| AsyncReaders.AsyncReader.ReadFollowers | cuti/cuti/async_readers.cpp:546-573 | likewise the identifier loop |
| AsyncReaders.AsyncReader.DrainMessage | cuti/cuti/async_readers.hpp:940-960 | the draining loop, suspended anywhere, denotes the same outcome |
| AsyncReaders.AsyncReader.Submit | cuti/cuti/async_readers.hpp:463-516 | delivering a value to the enclosing readers denotes what the parser does with it |
| AsyncReaders.AsyncReader.OnWhitespaceSkipped | cuti/cuti/async_readers.hpp:162-236 | what a reader does with the first byte of a token, the exception marker included |
| AsyncReaders.InBuf.Receive | cuti/cuti/nb_inbuf.cpp:171-229 | a chunk becomes readable; what remains to be read stays the same |
| ReaderMeaning.DeliverAppend | cuti/cuti/async_readers.hpp:463-516 | a failure, and a final value, pass through any number of enclosing readers |
| AsyncWriters.Write | cuti/cuti/async_writers.cpp:63-377 | for every pattern of output room and of rests, what is emitted is a prefix of the text, and all of it unless every byte of the room it was given is used up |
| AsyncWriters.AsyncWriter.Resume | cuti/cuti/async_writers.hpp:98-115 | any number of steps keeps emitted plus outstanding text the same |
| AsyncWriters.AsyncWriter.WriteDigits | cuti/cuti/async_writers.cpp:63-81 | the divisor loop emits the decimal digits, wherever it is interrupted |
| AsyncWriters.AsyncWriter.WriteContents | cuti/cuti/async_writers.cpp:252-281 | the string loop emits the escaped bytes |
| AsyncWriters.AsyncWriter.WriteEscaped | cuti/cuti/async_writers.cpp:283-320 | likewise for the second half of an escape |
| AsyncWriters.AsyncWriter.WriteLiteralChars | cuti/cuti/async_writers.hpp:98-115 | a literal is emitted from wherever it was left |
| AsyncWriters.AsyncWriter.NextTask | cuti/cuti/async_writers.hpp:345-369 | the sequence and tuple writers start their parts in order, with the closing token last |
| AsyncWriters.AsyncWriter.StartSigned | cuti/cuti/async_writers.cpp:165-198 | sign and magnitude; the minimum's magnitude does not overflow the unsigned type |
| DecimalDigits.DigitsAreEmitted | cuti/cuti/async_writers.cpp:63-81 | one digit at a time from the largest divisor down yields the decimal text |
| DecimalDigits.DigitsByDivision | cuti/cuti/async_writers.cpp:48-81 | dividing by falling powers of ten gives the same digits as the recursive definition of decimal text |
| DecimalDigits.TextIsDecimal | cuti/cuti/async_writers.cpp:48-61 | the number of digits that the first divisor stands for is the right one: no leading zero |
| RequestHandling.RequestHandler.Start | cuti/cuti/request_handler.cpp:46-141 | whatever goes wrong, one request is handled as specified: the reply is appended, the request drained, and the result submitted exactly once |
| RequestHandling.RequestHandler.OnMethodSucceeded | cuti/cuti/request_handler.cpp:68-79 | a request with trailing input is reported as a bad request, else the reply ends here |
| RequestHandling.RequestHandler.ReportFailure | cuti/cuti/request_handler.cpp:99-126 | the failure is described, with the method's name if it was read, and the reply ended |
| RequestHandling.RequestHandler.DrainRequest | cuti/cuti/request_handler.cpp:133-141 | drains through the newline |
| RequestHandling.HandlerStaysInStep | cuti/cuti/request_handler.cpp:46-141 | whatever the failure route, the reply depends on the request's own line only and the input is left just behind it |
| RequestHandling.HandlerStopsAtEof | cuti/cuti/request_handler.cpp:46-141 | if the input ends within a request, all of it is consumed |
| RequestHandling.ReplyIsOneLine | cuti/cuti/request_handler.cpp:99-131 | every reply is one line: exactly one newline, at the end |
| RequestHandling.RepliesMatchRequests | cuti/cuti/request_handler.cpp:46-141 | on one connection, the k-th reply answers the k-th request, for any number of requests and any failures, whatever the methods do on each occasion |
| RequestHandling.ClientSeesOutcome | cuti/cuti/request_handler.cpp:68-126 | a complete reply yields exactly the results; a failure that is reported after any number of results, or after any token of one, yields exactly that remote error |
| RequestHandling.CallWorks | cuti/cuti/request_handler.cpp:46-141 | the whole call: for every script of a known method and well-typed arguments, the client reads exactly what was written, or exactly the error thrown, wherever the method throws it, also within a result |
| RequestFailures.UnknownMethodFails | cuti/cuti/method_runner.cpp:42-55 | a request for an unknown method, whatever follows its name, makes the client fail with that remote error |
| RequestFailures.NamelessRequestFails | cuti/cuti/request_handler.cpp:68-91 | a request that does not start with a name makes the client fail with a bad request and the reader's reason |
| RequestFailures.BadArgumentFails | cuti/cuti/request_handler.cpp:87-91 | an argument that cannot be read makes the client fail with the reader's reason, also behind results already written |
| RequestFailures.TrailingInputFails | cuti/cuti/request_handler.cpp:68-97 | a request that goes on behind the arguments makes the client fail with a bad request, although the method succeeded |
| RequestFailures.ExtraArgumentFails | cuti/cuti/request_handler.cpp:68-97 | one argument too many is a bad request |
| RpcEngines.RpcEngine.Call | cuti/cuti/rpc_engine.hpp:81-225 | in every interleaving of the two tracks, with any synchronous completions: exactly one result, after one end of message was written and the reply drained; success exactly if neither track failed and no buffer has an error, else an I/O error first and then the first exception; and if nothing failed, the reply was read and the request written, once |
| RpcEngines.RpcEngine.Start | cuti/cuti/rpc_engine.hpp:81-111 | also when subroutines complete inside start(), both tracks are under way afterwards |
| RpcEngines.RpcEngine.CompleteReplyReader | cuti/cuti/rpc_engine.hpp:114-145 | whatever the reply reader is made to do, a failure is recorded before the engine is told, and the engine takes the matching way |
| RpcEngines.RpcEngine.CompleteRequestWriter | cuti/cuti/rpc_engine.hpp:156-183 | likewise for the request writer |
| RpcEngines.RpcEngine.OnReplyError | cuti/cuti/rpc_engine.hpp:121-142 | a failing reply reader cuts the request short, writes the end of message once, and drains |
| RpcEngines.RpcEngine.OnRequestError | cuti/cuti/rpc_engine.hpp:162-183 | a failing request writer cuts the reply short, drains once, and writes the end of message |
| RpcEngines.RpcEngine.OnMessageDrained | cuti/cuti/rpc_engine.hpp:144-153 | reports only if the output track is done |
| RpcEngines.RpcEngine.OnEomWritten | cuti/cuti/rpc_engine.hpp:185-194 | reports only if the input track is done |
| RpcEngines.Report | cuti/cuti/rpc_engine.hpp:196-225 | success exactly if nothing went wrong; the output error comes first, then the input error, then the first exception that was recorded |
| HeapOrder.FrontIsHighest | cuti/cuti/indexed_heap.hpp:158-164 | for every strict weak order, no element has priority over the front of a heap |
| HeapOrder.SwimStep | cuti/cuti/indexed_heap.hpp:290-322 | one exchange with the parent moves the only violation one level up |
| HeapOrder.SinkStep | cuti/cuti/indexed_heap.hpp:327-373 | one exchange with the highest child moves it one level down |
| HeapOrder.LastMovedIsNear | cuti/cuti/indexed_heap.hpp:204-214 | filling the hole with the last element breaks the order at the hole only |
| IndexedHeaps.OrderingListsTheContents | cuti/cuti/indexed_heap.hpp:375-392 | the ordering is a permutation of the live ids, so its size is the number of elements |
| IndexedHeaps.RemovedInverse | cuti/cuti/indexed_heap.hpp:204-214 | after a removal, index and ordering are inverse again and exactly one element is gone |
| IndexedHeaps.AppendedInverse | cuti/cuti/indexed_heap.hpp:135-152 | likewise after an addition |
| IndexedHeaps.PopFree | cuti/cuti/indexed_heap.hpp:264-274 | reusing a slot keeps the free stack acyclic and complete |
| IndexedHeaps.PushFree | cuti/cuti/indexed_heap.hpp:276-284 | freeing a slot likewise |
| IndexedHeaps.IndexedHeap.AddElement | cuti/cuti/indexed_heap.hpp:134-152 | refines adding an entry to a map, under an id that was not in use; all invariants are kept, and the number of slots is the peak number of elements |
| IndexedHeaps.IndexedHeap.RemoveElement | cuti/cuti/indexed_heap.hpp:197-224 | refines removing any entry; all other ids keep their meaning |
| IndexedHeaps.IndexedHeap.FrontElement | cuti/cuti/indexed_heap.hpp:158-164 | an id that no live element has priority over |
| IndexedHeaps.IndexedHeap.Swim | cuti/cuti/indexed_heap.hpp:290-322 | restores the heap order upwards, or reports that nothing moved |
| IndexedHeaps.IndexedHeap.Sink | cuti/cuti/indexed_heap.hpp:327-373 | restores the heap order downwards |
| IndexedHeaps.IndexedHeap.HighestOf | cuti/cuti/indexed_heap.hpp:333-357 | the highest of an element and its children |
| IndexedHeaps.IndexedHeap.AddToElements | cuti/cuti/indexed_heap.hpp:245-274 | takes the top of the free stack, or appends when it is empty |
| Rings.UnlinkRing | cuti/cuti/list_arena.hpp:257-261 | joining the neighbours of a node takes exactly it out of its ring |
| Rings.LinkRing | cuti/cuti/list_arena.hpp:263-269 | linking a node in front of another inserts it there |
| ListArenas.RelinkBeforeItself | cuti/cuti/list_arena.hpp:252-270 | moving an element in front of itself restores the links that were cut |
| ListArenas.ElementIsOnOneList | cuti/cuti/list_arena.hpp:276-312 | a live element is on exactly one list, once |
| ListArenas.ElementMoves | cuti/cuti/list_arena.hpp:252-270 | a move keeps every ring, also across lists and in front of itself |
| ListArenas.ElementFreesNode | cuti/cuti/list_arena.hpp:276-291 | a removal keeps every ring and pushes the node on an acyclic, disjoint free stack |
| ListArenas.ListArena.AddList | cuti/cuti/list_arena.hpp:183-205 | adds an empty list under a recycled id, or under the next one if none is free |
| ListArenas.ListArena.AddElementBefore | cuti/cuti/list_arena.hpp:214-245 | inserts a new element, with a recycled id if one is free, at exactly that position of that list |
| ListArenas.ListArena.MoveElementBefore | cuti/cuti/list_arena.hpp:252-270 | exactly the sequence operation, within or across lists; in front of itself it does nothing |
| ListArenas.ListArena.RemoveElement | cuti/cuti/list_arena.hpp:276-291 | removes exactly that element |
| ListArenas.ListArena.RemoveList | cuti/cuti/list_arena.hpp:296-312 | terminates, and removes the list with exactly its elements |
| ListArenas.ListArena.First | cuti/cuti/list_arena.hpp:123-127 | the first element, or the past-the-end id |
| ListArenas.InsertedStandsBefore | cuti/cuti/list_arena.hpp:214-245 | what an insertion means: the element stands in front of the given one, or at the end, and the others keep their order |
| ListArenas.RemovedIsGone | cuti/cuti/list_arena.hpp:276-291 | what a removal means: the others keep their order |
| ListArenas.MovedStandsBefore | cuti/cuti/list_arena.hpp:252-270 | what a move means: a removal and an insertion, and nothing in front of the element itself |
| ListArenas.ListArena.Next | cuti/cuti/list_arena.hpp:143-149 | the next element, or the past-the-end id |
| CircularBuffers.AroundExtends | cuti/cuti/circular_buffer.hpp:169-179 | appending a block of slack to data that wraps around appends exactly that block |
| CircularBuffers.AroundShrinks | cuti/cuti/circular_buffer.hpp:204-219 | dropping a block from the front drops exactly that block |
| CircularBuffers.CircularBuffer.PushBack | cuti/cuti/circular_buffer.hpp:169-179 | appends the given block, across the wrap |
| CircularBuffers.CircularBuffer.PopFront | cuti/cuti/circular_buffer.hpp:204-219 | drops the given block; an empty buffer is reset to its initial state |
| CircularBuffers.CircularBuffer.Copy | cuti/cuti/circular_buffer.cpp:45-60 | a copy has the same capacity and contents |
| CircularBuffers.CircularBuffer.Reserve | cuti/cuti/circular_buffer.cpp:102-117 | keeps the contents; changes the capacity unless the data would not fit; at most two passes |
| CircularBuffers.CircularBuffer.TakeFirstBlockOf | cuti/cuti/circular_buffer.cpp:108-113 | one pass moves the first block, and what is left after it does not wrap |
| CircularBuffers.CircularBuffer.TotalSlackSize | cuti/cuti/circular_buffer.hpp:118-123 | slack is the capacity less the contents |
| CircularBuffers.CircularBuffer.TotalDataSize | cuti/cuti/circular_buffer.hpp:129-134 | the size of the contents |
| CircularBuffers.CircularBuffer.HasSlack | cuti/cuti/circular_buffer.hpp:144-145 | exactly if the contents are below the capacity |
| CircularBuffers.CircularBuffer.EndSlack | cuti/cuti/circular_buffer.hpp:159-163 | the first block of slack is empty only if there is none |
| CircularBuffers.CircularBuffer.EndData | cuti/cuti/circular_buffer.hpp:196-197 | the first block of data is a prefix of the contents, and empty only if they are |
| NbOutbufs.NbOutbuf.Put | cuti/cuti/nb_outbuf.hpp:84-93 | accepts the byte, or drops it after an error |
| NbOutbufs.NbOutbuf.Write | cuti/cuti/nb_outbuf.cpp:48-66 | accepts as many bytes as fit, at least one |
| NbOutbufs.NbOutbuf.StartFlush | cuti/cuti/nb_outbuf.hpp:107-113 | the buffer stays writable exactly if there is nothing to flush |
| NbOutbufs.NbOutbuf.CallWhenWritable | cuti/cuti/nb_outbuf.cpp:99-135 | replaces any earlier callback; waits for the sink exactly if the buffer is not writable; the scheduler holds exactly what the tickets name |
| NbOutbufs.NbOutbuf.CancelWhenWritable | cuti/cuti/nb_outbuf.cpp:137-155 | nothing stays behind in the scheduler |
| NbOutbufs.NbOutbuf.EnableThroughputChecking | cuti/cuti/nb_outbuf.cpp:68-86 | at any time: a waiting buffer has an alarm exactly if it has a checker |
| NbOutbufs.NbOutbuf.DisableThroughputChecking | cuti/cuti/nb_outbuf.cpp:88-97 | likewise |
| NbOutbufs.NbOutbuf.PassToSink | cuti/cuti/nb_outbuf.cpp:187-208 | sent plus unsent bytes equal the accepted ones until the first error |
| NbOutbufs.NbOutbuf.OnSinkWritable | cuti/cuti/nb_outbuf.cpp:176-239 | the range given to the sink is never empty; the callback comes once everything was taken or an error occurred, and not before; all asserts hold |
| NbOutbufs.NbOutbuf.OnNextTick | cuti/cuti/nb_outbuf.cpp:241-280 | without an error the buffer goes on waiting, with one it becomes writable for good; all asserts hold |
| NbOutbufs.NbOutbuf.Fire | cuti/cuti/nb_outbuf.cpp:163-280 | whatever the scheduler fires, the new state is that of the specification; errors are sticky, a buffer in error is writable, and a callback finds the buffer writable exactly if it was so before or the buffer had been waiting for the sink |
| NbOutbufs.Play | cuti/cuti/nb_outbuf.cpp:48-280 | every run of a buffer is a run of its specification: so the sink gets, in order, what the writer was told has been taken, as many bytes as it says it took, until an error, and every requested callback is invoked once, unless the user asks for another one or cancels while it waits, or it still waits |
| OutbufRuns.CallbacksBalance | cuti/cuti/nb_outbuf.cpp:99-239 | over every run of the specification, requests are invocations plus callbacks that were waiting when another one was asked for or when they were cancelled, plus the one that still waits |
| OutbufRuns.NothingGetsLost | cuti/cuti/nb_outbuf.cpp:48-239 | over every run of the specification, delivered plus unsent bytes are those that put and write took; after an error, the delivered ones are a prefix |
| OutbufRuns.DeliveredIsTaken | cuti/cuti/nb_outbuf.cpp:187-208 | over every run, exactly as many bytes are delivered as the sink's answers say it took |
| OutbufRuns.SinkAnswered | cuti/cuti/nb_outbuf.cpp:176-239 | after an answer the buffer goes on waiting exactly if there is no error and bytes are left, and these; otherwise it is empty and the callback comes |
| OutbufRuns.TickAnswered | cuti/cuti/nb_outbuf.cpp:241-280 | at the checker's alarm the buffer goes on waiting exactly if the checker has no objection; otherwise it gives up and the callback comes |
| OutbufRuns.WriterIsTold | cuti/cuti/nb_outbuf.cpp:48-66 | put and write take as many bytes as there is room for, and all of them after an error |
| OutbufRuns.FlushMeans | cuti/cuti/nb_outbuf.hpp:107-113 | flushing stops writing exactly if there is something to send, and changes nothing else |
| OutbufRuns.CheckingMeans | cuti/cuti/nb_outbuf.cpp:68-97 | enabling and disabling affect only the checker and the alarm of a waiting buffer |
| OutbufRuns.CallMeans | cuti/cuti/nb_outbuf.cpp:99-155 | the last requested callback waits, for the sink exactly if the buffer is not writable; after a cancellation none does |
| OutbufRuns.ErrorsAreSticky | cuti/cuti/nb_outbuf.cpp:187-280 | over every run of the specification, an error stays, and nothing is delivered after it |
| OutbufRuns.CallbackOfFullBuffer | cuti/cuti/nb_outbuf.cpp:99-115 | from every writable state: a callback that is requested, and then the buffer filled before the next tick, comes when the buffer is full |
| OutbufRuns.CallbackOfWritableBuffer | cuti/cuti/nb_outbuf.cpp:99-115 | if nothing is written before the next tick, it comes when the buffer is writable |
| NbOutbufs.Flusher.Start | cuti/cuti/flusher.cpp:30-34 | submits at once exactly if nothing was waiting to be sent |
| NbOutbufs.Flusher.OnEvent | cuti/cuti/flusher.cpp:36-47 | if the flusher submits and there is no error, every accepted byte was delivered |
| NbInbufs.NbInbuf.Peek | cuti/cuti/nb_inbuf.hpp:87-91 | the first byte not yet consumed, or end of input |
| NbInbufs.NbInbuf.Skip | cuti/cuti/nb_inbuf.hpp:97-104 | consumes exactly that byte |
| NbInbufs.NbInbuf.Read | cuti/cuti/nb_inbuf.cpp:78-93 | consumes the next bytes, in order, as many as asked for and available |
| NbInbufs.NbInbuf.CallWhenReadable | cuti/cuti/nb_inbuf.cpp:95-130 | waits for the source exactly if the buffer is not readable |
| NbInbufs.NbInbuf.CancelWhenReadable | cuti/cuti/nb_inbuf.cpp:132-150 | nothing stays behind in the scheduler |
| NbInbufs.NbInbuf.EnableThroughputChecking | cuti/cuti/nb_inbuf.cpp:48-65 | at any time: a waiting buffer has an alarm exactly if it has a checker |
| NbInbufs.NbInbuf.ReadSource | cuti/cuti/nb_inbuf.cpp:182-199 | a chunk that comes with an error, or that the checker rejects, is not used |
| NbInbufs.NbInbuf.OnSourceReadable | cuti/cuti/nb_inbuf.cpp:171-229 | a spurious wakeup goes on waiting; else the chunk is obtained, or the buffer is at end of input; all asserts hold |
| NbInbufs.NbInbuf.OnNextTick | cuti/cuti/nb_inbuf.cpp:231-270 | with an error the buffer is at end of input, without one it goes on waiting; all asserts hold |
| NbInbufs.NbInbuf.Fire | cuti/cuti/nb_inbuf.cpp:158-270 | whatever the scheduler fires, the new state is that of the specification, and a callback finds the buffer readable exactly if it was so before or the buffer had been waiting for the source |
| NbInbufs.Play | cuti/cuti/nb_inbuf.cpp:48-270 | every run of a buffer is a run of its specification: so the reader gets what the source gave, in order; once the input has ended or failed, the source is not read again; and every requested callback is invoked once, unless the user asks for another one or cancels while it waits, or it still waits |
| InbufRuns.CallbacksBalance | cuti/cuti/nb_inbuf.cpp:95-229 | as for output, over every run of the specification |
| InbufRuns.NothingGetsLost | cuti/cuti/nb_inbuf.cpp:78-229 | over every run of the specification, what the steps handed to the reader is what was consumed, and with the unread bytes it is what the source gave |
| InbufRuns.ObtainedIsGiven | cuti/cuti/nb_inbuf.cpp:171-229 | over every run, what is obtained is what the source's answers gave, in order, without failed and rejected ones |
| InbufRuns.SourceAnswered | cuti/cuti/nb_inbuf.cpp:171-229 | after an answer the buffer goes on waiting exactly if there is no error and the source would block; otherwise the callback comes, and the input has ended exactly if nothing was obtained |
| InbufRuns.TickAnswered | cuti/cuti/nb_inbuf.cpp:231-270 | at the checker's alarm the buffer goes on waiting exactly if the checker has no objection; otherwise the input has ended and the callback comes |
| InbufRuns.CheckingMeans | cuti/cuti/nb_inbuf.cpp:48-76 | as for output |
| InbufRuns.CallMeans | cuti/cuti/nb_inbuf.cpp:95-150 | as for output |
| InbufRuns.EndIsFinal | cuti/cuti/nb_inbuf.cpp:171-270 | over every run of the specification, once the input has ended or failed, the source is not read again, and the error stays |
| InbufRuns.CallbackOfEmptyBuffer | cuti/cuti/nb_inbuf.cpp:95-111 | from every state with bytes to read: a callback that is requested, and then everything read before the next tick, comes when there is nothing to read |
| PollSelectors.PollSelector.MakeTicket | cuti/cuti/poll_selector.cpp:159-191 | a new ticket at the end of the watched list with an active entry, or no change at all, only if the arena has reached the maximum size |
| PollSelectors.PollSelector.CancelTicket | cuti/cuti/poll_selector.cpp:193-200 | the ticket is on neither list any more, and its entry is inactive |
| PollSelectors.PollSelector.Poll | cuti/cuti/poll_selector.cpp:111-125 | the count is the number of watched tickets that are ready |
| PollSelectors.PollSelector.MoveReady | cuti/cuti/poll_selector.cpp:127-145 | every ready ticket, and no other, is moved to the pending list in order, though the list changes under the walk; the count ends at zero |
| PollSelectors.PollSelector.Select | cuti/cuti/poll_selector.cpp:107-156 | hands out the first pending callback and forgets its ticket: at most once, never after a cancellation |
| PollSelectors.PollSelector.HasWorkMeansCallbacks | cuti/cuti/poll_selector.cpp:101-105 | there is work exactly if callbacks are registered |
| PollSelectors.OthersAre | cuti/cuti/poll_selector.cpp:127-145 | moved and remaining tickets are exactly the ready and the other ones |
| PollSelectors.SortingKeepsOrder | cuti/cuti/poll_selector.cpp:127-145 | moved and remaining tickets keep their order |
| PollSelectors.WalkStep | cuti/cuti/poll_selector.cpp:128-143 | one step of the walk, on the changing list |
| PollSelectors.NoneLeft | cuti/cuti/poll_selector.cpp:128-145 | stopping early, when the count is used up, misses no ticket |
| DefaultSchedulers.DefaultScheduler.Wait | cuti/cuti/default_scheduler.cpp:41-91 | does exactly what the specification allows: rounds for an alarm that is due first, or polls if there is no alarm, or reports that there is nothing to wait for; the result and the whole new state are those of the first decisive round |
| SchedulerRuns.WaitAccounts | cuti/cuti/default_scheduler.cpp:41-91 | every result has its reason in an observation: an alarm is due and none is due earlier; an I/O callback was found ready, or was left over; a failure is one of poll; and without a result no I/O was ready |
| SchedulerRuns.DueAlarmIsServed | cuti/cuti/default_scheduler.cpp:46-76 | a call of wait that twice sees a registered alarm due comes back with a result |
| SchedulerTheorems.HandedOutOnce | cuti/cuti/default_scheduler.cpp:41-122 | over every run, what a call of wait hands out was registered with that callback, no longer is afterwards, and nothing else changes |
| SchedulerTheorems.RunKeepsLists | cuti/cuti/default_scheduler.cpp:41-122 | over every run, every registered I/O ticket is on exactly one of the lists of the selector, once, and no other ticket is |
| SchedulerTheorems.OvertakingIsBounded | cuti/cuti/default_scheduler.cpp:47-63 | over every run in which an alarm stays registered and is due whenever the clock is read, I/O results are at most one more than alarm results, and none more unless it was the turn of I/O |
| SchedulerTheorems.OvertakingStaysInBudget | cuti/cuti/default_scheduler.cpp:41-91 | if in such a run nothing cuts in front of the alarm, I/O overtakes it at most once per alarm that was due as early at the start, plus once if it was the turn of I/O |
| SchedulerTheorems.BudgetIsReached | cuti/cuti/default_scheduler.cpp:41-91 | from every state and for every alarm there is a run that reaches this bound |
| SchedulerTheorems.AtMostOnceExactly | cuti/cuti/default_scheduler.cpp:41-91 | so a due alarm is overtaken at most once in all such runs, if and only if that bound is at most one |
| SchedulerTheorems.AtMostOnceIffNoneAsEarly | cuti/cuti/default_scheduler.cpp:41-91 | whosever turn it is, a due alarm is overtaken at most once, if and only if no other registered alarm is due as early |
| SchedulerTheorems.IoIsPolledBetweenAlarms | cuti/cuti/default_scheduler.cpp:47-63 | over every run, between two alarm results I/O is polled while an alarm is due, if any is registered when wait is called for the second one |
| DefaultSchedulers.Play | cuti/cuti/default_scheduler.cpp:41-122 | every script of registrations, cancellations and waits makes a run of the specification, so the bound on overtaking holds of the scheduler object |
| DefaultSchedulers.LaterAlarmIsOvertakenTwice | cuti/cuti/default_scheduler.cpp:41-91 | one run of a scheduler object, given by its events and the states between them: when one alarm has fired, one more alarm is in front, and two I/O callbacks come before the later alarm, which stays registered and due |
| SchedulerTheorems.LateAlarmIsOvertakenTwice | cuti/cuti/default_scheduler.cpp:41-91 | every run with these registrations and calls of wait has that outcome |
| DefaultSchedulers.DefaultScheduler.Round | cuti/cuti/default_scheduler.cpp:46-76 | one round of the loop does exactly what the specification of a round says |
| DefaultSchedulers.DefaultScheduler.CallAlarm | cuti/cuti/default_scheduler.cpp:93-97 | registers an alarm under a new ticket |
| DefaultSchedulers.DefaultScheduler.CancelAlarm | cuti/cuti/default_scheduler.cpp:99-102 | a cancelled alarm is no longer registered, so never returned |
| DefaultSchedulers.DefaultScheduler.CallWhenReady | cuti/cuti/default_scheduler.cpp:104-117 | registers an I/O callback under a new ticket; refuses only if the arena has as many nodes as there may be poll entries, and then changes nothing |
| DefaultSchedulers.DefaultScheduler.CancelIo | cuti/cuti/default_scheduler.cpp:109-122 | likewise for I/O |
| ClientCaches.EarlyExitIsFullFilter | cuti/cuti/simple_nb_client_cache.cpp:55-81 | newest first, the scan that stops at the first expired entry finds what a filter of all entries by age finds |
| ClientCaches.NothingIsLostByObtain | cuti/cuti/simple_nb_client_cache.cpp:55-82 | every entry is kept, handed out or closed, once |
| ClientCaches.NothingIsLostByInvalidation | cuti/cuti/simple_nb_client_cache.cpp:171-219 | every entry is kept or closed, once |
| ClientCaches.ClientCache.FindEntry | cuti/cuti/simple_nb_client_cache.cpp:51-82 | the newest unexpired match by the full filter, if there is one; no expired entry survives |
| ClientCaches.ClientCache.Obtain | cuti/cuti/simple_nb_client_cache.cpp:43-123 | hands out that match, else a new connection; if that fails, no connection to the server survives |
| ClientCaches.ClientCache.Store | cuti/cuti/simple_nb_client_cache.cpp:125-157 | newest first and within the maximum size, also if that is zero; the oldest entry is evicted exactly if the cache was full |
| ClientCaches.ClientCache.InvalidateEntries | cuti/cuti/simple_nb_client_cache.cpp:159-219 | no entry for the address and no expired entry survives, and all others do, in order |
| AbsolutePaths.AbsolutePath | cuti/cuti/fs_utils.cpp:363-431 | equals the segment-stack meaning, for every path and normalised working directory; the loop's asserts hold; an empty path fails |
| AbsolutePaths.PopSegment | cuti/cuti/fs_utils.cpp:403-414 | popping characters pops one segment, and never the root |
| AbsolutePaths.OneSegment | cuti/cuti/fs_utils.cpp:386-428 | one round of the loop does to the result what one step does to the stack |
| PathMeaning.InnerSegmentsAreProper | cuti/cuti/fs_utils.cpp:363-431 | no empty, "." or ".." segment, except that a slash at the end is kept |
| PathMeaning.AbsoluteIsIdempotent | cuti/cuti/fs_utils.cpp:363-431 | an absolute path is its own absolute form, also with a slash at its end |
| PathLaws.DotDotUndoes | cuti/cuti/fs_utils.cpp:403-414 | a segment and '..' behind it can be left out, wherever they are |
| PathLaws.DotDotAtRoot | cuti/cuti/fs_utils.cpp:403-414 | '..' at the root can be left out |
| PathLaws.DotStays | cuti/cuti/fs_utils.cpp:399-402 | '.' can be left out |
| PathLaws.SlashesAreOne | cuti/cuti/fs_utils.cpp:384-388 | several slashes are one |
| PathLaws.RelativeToDirectory | cuti/cuti/fs_utils.cpp:363-376 | a relative path is the path behind the current directory |
| PathLaws.SegmentIsAppended | cuti/cuti/fs_utils.cpp:416-428 | a proper segment behind a path stands behind its absolute form |
| PathLaws.SlashIsKept | cuti/cuti/fs_utils.cpp:416-428 | a slash at the end is kept, and not doubled |
| PathLaws.RootIsAbsolute | cuti/cuti/fs_utils.cpp:363-376 | the root is its own absolute form |
| PathMeaning.SegmentStep | cuti/cuti/fs_utils.cpp:386-428 | segments can be taken one at a time |

## Left out

- Sockets, pipes, poll, threads, condition variables and signals themselves: they are the steps and oracles described above.
- The epoll, kqueue and select selectors: the same arena pattern with more operating system detail and no harder property.
- Memory orders of atomics: raise, lower and the stop flag are atomic steps.
- The computation inside the throughput checker: its verdict is arbitrary.
- Exception-guard rollback and exhaustion of memory or of `int` ids, except the limit on poll entries.
- Move construction, swapping and copying of the heap and the arena: they only move or duplicate fields.
- Flags, enumerations and user-defined types on the wire: they are mapped to the types of the grammar before they are written.
- I/O errors of the buffers below the request handler: it then reads end of input and its output is dropped.
- Logging, endpoints, resolvers, daemonisation, pid files, Windows branches, and the x264 and x265 tools: plumbing.
- DispatcherProgress.ShutdownIsBounded: bounds the working steps of a shutdown by the rank and the number of spurious wakeups; that the operating system runs every thread that can run is assumed.
- AsyncWriters.Write: that the room given is enough is the caller's concern; running short leaves a prefix.
- ClientCaches.ClientCache.Store: relies on a clock that does not go backwards, as the library's steady clock.
- IndexedHeaps.IndexedHeap.AddElement: ids are unbounded, so the exception for running out of ids does not occur.
