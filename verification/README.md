# Verified model of the MTASC client framework

MTASC is a C++ client framework: a thread pool runs every operation, asynchronous socket reads collect bytes in a
growing buffer until enough of them, or a delimiter, has arrived, failed calls go through retry loops with backoff,
and two state machines take URLs apart. This project models those parts in Dafny and proves what they promise, for
every interleaving of threads, every behaviour of a socket, and every input string.
`dafny verify dfyconfig.toml` checks all of it.

## How it is built

- **Thread pool.** `ThreadPool.dfy` is the pool as a state machine over single accesses: lock, push, count, unlock, wake,
  each read of the exit test and of the wait predicate, pop, run, return, guard, decrement, exit, stop, join. A worker's
  wait is the one coarser step: it takes the mutex and finds its predicate true at once, since nothing it read is used
  afterwards and a true predicate stays true while the mutex is held. A `schedule` names the thread that steps next, so a
  statement over all legal schedules is one over all interleavings of any number of workers, clients and stoppers. Tasks
  are finite trees of further submissions, by `asyncTaskvoid` or `asyncTaskret`. A condition-variable wait is a step
  enabled when its predicate holds; a timed wait carries the number of re-tests left. `ThreadManager.dfy` is the object
  itself, changed in place and proved to follow that machine. `PoolSafety.dfy` holds the invariant, `PoolShutdown.dfy`
  shutdown and deadlock freedom, `PoolDrain.dfy` termination and exactly-once, `PoolLoss.dfy` the exact conditions under
  which stopping loses a submission, `PoolWait.dfy` what the wait's verdict and a returned join mean, `PoolRace.dfy` the
  exact condition under which the wait predicate can be fooled, and `ReadCallbacks.dfy` the reads as tasks of the pool.
- **Buffer.** `ReadBuffer.dfy`: the class over an array, refining a byte queue over whole histories.
- **Sockets.** `Sockets.dfy`: an oracle fixes the incoming bytes and the answer of every receive and `select`, and every
  errno or TLS error, all arbitrary. `select`, errno and TLS codes are read per number of receives made, because only a
  call changes them. The read machines (`TcpRead.dfy`, `TcpReadUntil.dfy`, `TlsReadUntil.dfy`) are loops over a `Socket`, a
  `ReadBuffer` and the posted `Callbacks`; each equals a function of the oracle, and the theorems are about that function.
  `TcpReadExits.dfy`, `TcpReadUntilExits.dfy` and `TlsReadUntilExits.dfy` say, in terms of the oracle's answers alone, which
  exit each takes and with what.
  `Progress.chunk` is the last chunk that arrived, empty before any has.
- **URLs.** `Url.dfy` proves both character machines equal to a reference that finds the parts by searching;
  `UrlProperties.dfy` has agreement and the round trips, `UrlPort.dfy` the model of `std::stoi`, `UrlParameters.dfy` the
  parameter loop. `UrlShapes.dfy` and `UrlItems.dfy` give the meaning of every string: each is printed by some shape, or
  list of parameter items, and parsing returns what that means, errors included.

Points where the code decides something its own comments do not say, and the model follows the code:

- After a successful `recv`, `async_read_until` has no `break` and runs on into its error state, so its main loop receives at
  most once and the retry loop does the rest (include/client/socket/TCP/socket_tcp.hpp:651-664).
- `M_retryTcpRead` gives up on the first negative receive, whatever the count, because it tests `max >= count`
  (include/client/socket/TCP/socket_tcp.hpp:963), and treats a closed connection as success.
- `waitAllthread` reads the count and then the deque. M_countMutex_ does not keep `asyncTaskret` or a pop out in between, so
  the wait can report completion too early; `PoolRace.TwoReadsMisleadExactlyWhenRacy` says exactly when, and
  `PoolShutdown.WaitSeesAllDone` that it cannot when only running tasks submit after the stop.
- A worker's exit test reads the deque and then the stop under M_tasksMutex_ alone, while `asyncTaskvoid` pushes under
  M_countMutex_ (include/thread/threadTask.hpp:98, 148). A client can push between the two reads, and the last worker then
  leaves a queued task behind; `PoolLoss.LateSubmissionIsLost` is such a run. `PoolLoss.StopLosesExactlyIf` says, at the
  first step of waitAllthread or the destructor, exactly when some run loses a submission, and `PoolLoss.LostExactlyIfLate`
  how many.
- A query parameter without '=' takes as its key everything up to the next '=' anywhere, '&' and the next key included
  (include/client/Parser/Urlparser.hpp:102-107); `UrlItems.Meaning` spells it out.
- A URL with fewer than three characters from the scheme's ':' on moves the cursor past the end of the string; the model
  reports that as `PastEnd`.

## Model

| member | source | states |
|---|---|---|
| ThreadManagers.ThreadManager.constructor | include/thread/threadTask.hpp:84-128 | starts any number of idle workers with an empty deque, count 0, not stopped, invariant established |
| ThreadManagers.ThreadManager.WorkerStep | include/thread/threadTask.hpp:88-122 | each in-place step of the worker loop is the state machine's step |
| ThreadManagers.ThreadManager.SubmitStep | include/thread/threadTask.hpp:148-186 | lock, push, count and unlock of either submission, in place, is the state machine's step |
| ThreadManagers.ThreadManager.StopStep | include/thread/threadTask.hpp:191-236 | each in-place step of waitAllthread and the destructor is the state machine's step |
| ThreadManagers.ThreadManager.Interleave | include/thread/threadTask.hpp:84-236 | running the object by any legal schedule ends in the machine's run of it and keeps the invariant |
| PoolSafety.RunInv | include/thread/threadTask.hpp:88-218 | mutex ownership, queue, ticket and count invariants hold after every run |
| PoolSafety.NeverBothMutexes | include/thread/threadTask.hpp:88-217 | in every reachable state no thread holds both mutexes |
| PoolSafety.CountIsExact | include/thread/threadTask.hpp:88-186 | the count is queued plus popped-unfinished minus pushed-uncounted in every reachable state, it is never negative, and a worker that reaches the guard always goes on to decrement |
| PoolSafety.GuardSucceeds | include/thread/threadTask.hpp:112-116 | at the guard and at the decrement the count is positive, although pushes and decrements use different mutexes |
| PoolSafety.ExactlyOnceInOrder | include/thread/threadTask.hpp:106-186 | submissions are the started tasks followed by the queue; each started ticket is either completed or in exactly one worker |
| PoolSafety.HistoriesGrow | include/thread/threadTask.hpp:106-186 | along every run the submission and start orders are only extended and completions never undone |
| PoolSafety.ZeroCountIsDone | include/thread/threadTask.hpp:196-200 | count 0 and an empty deque seen together under M_countMutex_ mean every submitted task completed, even with an asyncTaskret midway |
| PoolShutdown.ShutdownLosesNothing | include/thread/threadTask.hpp:94-100 | with a worker and only running tasks submitting after the stop, all workers out means empty deque, nothing unfinished, count 0, every submission completed |
| PoolShutdown.WaitSeesAllDone | include/thread/threadTask.hpp:191-204 | under that discipline, any waitAllthread that has read a zero count finds every submitted task completed |
| PoolShutdown.StuckIsAtRest | include/thread/threadTask.hpp:88-236 | no deadlock: nobody can step iff every worker left or waits for unannounced work, every client is done and every stopper is back from its joins |
| PoolDrain.MeasureFalls | include/thread/threadTask.hpp:88-217 | a measure of remaining call trees and phases falls on every step of every thread |
| PoolDrain.RunsAreBounded | include/thread/threadTask.hpp:88-217 | no run is longer than the measure of its start |
| PoolDrain.StoppedPoolDrains | include/thread/threadTask.hpp:191-236 | a pool somebody stops drains: bounded runs, ending with all workers out and all joins returned, and all tasks completed under the discipline |
| PoolDrain.NamesConserved | include/thread/threadTask.hpp:106-186 | for every name, pushed plus still queued below plus still ahead of the threads is constant along every run |
| PoolDrain.EveryNamedTaskRan | include/thread/threadTask.hpp:88-217 | after a disciplined shutdown each name in the clients' call trees ran exactly as often as it occurs there |
| PoolDrain.CallbackRunsExactlyOnce | include/thread/threadTask.hpp:88-217 | a callback posted in one place is carried by exactly one ticket, and that ticket completed |
| PoolLoss.LastEmptyReadIsDone | include/thread/threadTask.hpp:98-100 | without any discipline, when the last worker reads an empty deque in its exit test everything submitted so far has completed |
| PoolLoss.LostSinceLastLook | include/thread/threadTask.hpp:98-155 | a run to the end from that read loses exactly the tasks the clients had still to push, and completes everything iff there were none |
| PoolLoss.LostExactlyIfLate | include/thread/threadTask.hpp:98-155 | from any state in which every worker has left or is about to, a run to the end starts nothing and leaves queued what was queued plus what clients had still to push |
| PoolLoss.Finish | include/thread/threadTask.hpp:88-236 | every pool whose destructors have not returned can be run to its end without a client using a destroyed pool |
| PoolLoss.SafeLosesNothing | include/thread/threadTask.hpp:88-236 | under the invariant that a stop without danger establishes, every run to the end completes everything |
| PoolLoss.StopLosesExactlyIf | include/thread/threadTask.hpp:191-223 | at the stopper's first step: some proper run to the end loses a submission iff a client has a call not begun, or is about to push under M_countMutex_ while the pool is quiet and no client is about to push in asyncTaskret; otherwise every run to the end completes everything; finished clients are safe |
| PoolLoss.LateSubmissionIsLost | include/thread/threadTask.hpp:98-155 | a concrete run, without any destructor, in which the client pushes between the two reads of the exit test and its task is never started |
| PoolRace.TwoReadsMisleadExactlyWhenRacy | include/thread/threadTask.hpp:196-200 | after the zero read, the others can make the deque look empty with a task unfinished iff a client is at or in asyncTaskret and a worker is at the top of its loop |
| PoolRace.RacyIsReachable | include/thread/threadTask.hpp:191-200 | a concrete start and run that reach such a moment |
| PoolWait.WaitVerdict | include/thread/threadTask.hpp:191-204 | in every run, a wait with w re-tests has concluded iff it read an empty deque, right after a zero count; it has timed out, or is about to, iff w + 1 of its tests read a non-zero count or a non-empty deque |
| PoolWait.QuietWaitSucceeds | include/thread/threadTask.hpp:191-204 | a wait that starts in a quiet pool with finished clients never fails a test, never times out, and a run to the end brings it back with the wait completed |
| PoolWait.PoolOutlivesWorkers | include/thread/threadTask.hpp:206-231 | once any waitAllthread or destructor is back from its joins every worker has left its loop and stays out, no task starts or completes any more, and under the discipline every submission has completed |
| ReadCallbacks.ReadIsReader | include/client/socket/TCP/socket_tcp.hpp:762-926 | whatever the socket does, the function async_read posts is a pool task that submits its callback once |
| ReadCallbacks.ReadUntilIsReader | include/client/socket/TCP/socket_tcp.hpp:582-726 | the same for async_read_until |
| ReadCallbacks.ReadCallbackRunsOnce | include/client/socket/TCP/socket_tcp.hpp:762-926 | a client's read, among any other submissions, has its callback run by exactly one ticket, and that ticket completed |
| ReadBuffers.ReadBuffer.constructor | include/client/buffer/buffer.hpp:26-30 | an empty array and both pointers 0 |
| ReadBuffers.ReadBuffer.AppendToBuffer | include/client/buffer/buffer.hpp:50-54 | the readable bytes become the old ones followed by the data; the fields follow the value model |
| ReadBuffers.ReadBuffer.RetrieveData | include/client/buffer/buffer.hpp:56-61 | the first n readable bytes are dropped, with both pointers reset when none is left |
| ReadBuffers.ReadBuffer.EnsureWriteableBytes | include/client/buffer/buffer.hpp:73-84 | no-move, overlapping memmove and resize all keep the readable bytes and make room |
| ReadBuffers.ReadBuffer.ReadableBytes | include/client/buffer/buffer.hpp:67-69 | the number of readable bytes |
| ReadBuffers.ReadBuffer.Matches | include/client/socket/TCP/socket_tcp.hpp:608-609 | comparing at an index of the readable bytes |
| ReadBuffers.HistoryRefinesQueue | include/client/buffer/buffer.hpp:50-84 | after every history of appends and in-range retrieves the bytes between the pointers are the plain queue, with the pointers ordered and equal only at 0 |
| ReadBuffers.CapacityBound | include/client/buffer/buffer.hpp:73-84 | over every history the array never shrinks and, once it grew, is smaller than peak length plus largest append |
| ReadBuffers.FreshCapacityBound | include/client/buffer/buffer.hpp:73-84 | a fresh buffer to which anything was appended is strictly smaller than peak plus largest append |
| ReadBuffers.RoomExactly | include/client/buffer/buffer.hpp:73-84 | the array grows iff all free cells together are too few, and the bytes move to the front iff they are enough but not all behind the write pointer |
| Delimiter.Scan | include/client/socket/TCP/socket_tcp.hpp:604-614 | finds the delimiter iff it occurs in the readable bytes |
| Sockets.Socket.Receive | include/client/socket/TCP/socket_tcp.hpp:642-643 | a receive returns an arbitrary answer cut to the array, and the next bytes of the stream when positive |
| Sockets.Callbacks.Post | include/client/socket/TCP/socket_tcp.hpp:671-676 | posts one callback with the error, the count and the buffer's bytes |
| ChunkedSearch.FirstInStream | include/client/socket/TCP/socket_tcp.hpp:604-614 | the first occurrence in the received bytes is the first in every longer part of the stream, with less than one chunk behind it |
| TcpReadUntil.RetryReadUntil | include/client/socket/TCP/socket_tcp.hpp:1009-1078 | the retry loop on socket and buffer equals its function of the oracle |
| TcpReadUntil.AsyncReadUntil | include/client/socket/TCP/socket_tcp.hpp:582-726 | the posted function, fall-through included, equals its function of the oracle and posts its callback exactly once |
| TcpReadUntil.HandleError | include/client/socket/TCP/socket_tcp.hpp:664-688 | the error state: retry, then one callback with the outcome |
| TcpReadUntil.RetryConserves | include/client/socket/TCP/socket_tcp.hpp:1021-1078 | the retry keeps every received byte in order and receives at most once per try left |
| TcpReadUntil.RetryScansExactlyWhen | include/client/socket/TCP/socket_tcp.hpp:1021-1069 | the retry finds the delimiter iff for some k below the limit it occurs after k receives reached through retryable errnos and no close |
| TcpReadUntil.UntilConserves | include/client/socket/TCP/socket_tcp.hpp:641-726 | every exit delivers the initial bytes and all received ones in order, with exact size and error code, after a bounded number of receives |
| TcpReadUntil.FirstDelimiterOfTheStream | include/client/socket/TCP/socket_tcp.hpp:601-621 | whatever the chunking, a successful find delivers the stream's first occurrence with fewer bytes behind it than the last chunk |
| TcpReadUntil.TaskFindsExactlyWhen | include/client/socket/TCP/socket_tcp.hpp:599-664 | the exact condition for the whole run to end by finding the delimiter |
| TcpReadUntilExits.VerdictExactly | include/client/socket/TCP/socket_tcp.hpp:1013-1077 | each verdict of the retry (delimiter found, errno 106, closed with data, failed) and what was read then, iff the socket's answers say so |
| TcpReadUntilExits.UntilExitsExactly | include/client/socket/TCP/socket_tcp.hpp:599-721 | the exact condition for each exit of async_read_until: found, closed, or each verdict of the retry |
| TcpRead.RetryRead | include/client/socket/TCP/socket_tcp.hpp:941-1006 | the retry loop on socket and buffer equals its function of the oracle |
| TcpRead.AsyncRead | include/client/socket/TCP/socket_tcp.hpp:769-930 | the posted function equals its function of the oracle and posts its callback exactly once |
| TcpRead.HandleError | include/client/socket/TCP/socket_tcp.hpp:873-908 | the error state: errno 106, retry success or retry failure, one callback each |
| TcpRead.RetryConserves | include/client/socket/TCP/socket_tcp.hpp:951-1005 | the retry keeps every received byte, one receive per try, at most max tries, 500k(k-1) microseconds for k tries |
| TcpRead.RetrySucceedsExactlyWhen | include/client/socket/TCP/socket_tcp.hpp:941-1006 | success iff errno is 106 at entry or some k-th receive ends it: closed, long enough, or the last try |
| TcpRead.ReadConserves | include/client/socket/TCP/socket_tcp.hpp:791-926 | every exit delivers the initial bytes and all received ones in order, with exact size and error code |
| TcpRead.ReceivesBounded | include/client/socket/TCP/socket_tcp.hpp:791-870 | at most max(1, size minus what is there) main-loop receives under any environment |
| TcpRead.DoneDelivers | include/client/socket/TCP/socket_tcp.hpp:859-923 | DONE delivers at least size bytes, and fewer than size + 4096 from a shorter buffer |
| TcpReadExits.RetryEndsExactly | include/client/socket/TCP/socket_tcp.hpp:945-1006 | success or failure of the retry and what was read then, iff the socket's answers say so |
| TcpReadExits.ReadExitsExactly | include/client/socket/TCP/socket_tcp.hpp:769-926 | exit, progress and number of main-loop receives of async_read are exactly what the socket's answers determine; size 0 means 4096 and an unset limit ten tries |
| TcpReadExits.ExitsWhen | include/client/socket/TCP/socket_tcp.hpp:816-908 | exit by exit: closed iff the deciding receive answers 0, done iff it is positive and the total suffices, connected or retried iff it or its select is negative, as errno says |
| TlsReadUntil.RetryReadUntil | include/client/socket/SSL/socket_ssl.hpp:766-878 | the TLS retry on socket and buffer equals its function of the oracle, with quadratic backoff and 100000 added to the timeout per WANT result |
| TlsReadUntil.SucceedsExactlyWhen | include/client/socket/SSL/socket_ssl.hpp:775-868 | success iff entered retryably and, for some k up to max - 2, the delimiter occurs after k reads none of which is fatal or zero |
| TlsReadUntil.RetryConserves | include/client/socket/SSL/socket_ssl.hpp:802-868 | every byte read is kept in order; sleeps stay below the limit and reads do not exceed sleeps |
| TlsReadUntil.FirstDelimiterOfTheStream | include/client/socket/SSL/socket_ssl.hpp:814-861 | a successful TLS retry holds the stream's first occurrence with less than one chunk behind it |
| TlsReadUntilExits.RetryEndsExactly | include/client/socket/SSL/socket_ssl.hpp:766-878 | the whole outcome of the TLS retry, iff the connection's answers say so: success, bytes read, number of sleeps, and number of WANT results added to the timeout |
| Backoff.SleptIsQuadratic | include/client/socket/TCP/socket_tcp.hpp:1099-1100 | k sleeps from a given count total 1000·count·k + 500·k·(k+1) microseconds |
| Backoff.RetryConnect | include/client/socket/TCP/socket_tcp.hpp:1080-1126 | success iff some connect within the limit goes through after failures only; stops after the first that goes through, or at the limit, or when errno ends it; exact sleep |
| Backoff.StopsOnce | include/client/socket/TCP/socket_tcp.hpp:1080-1126 | the stopping condition RetryConnect ensures fits one number of tries only |
| Backoff.RetryHandshake | include/client/socket/SSL/socket_ssl.hpp:982-999 | WANT path: success iff one of the first max handshakes returns 1, as few tries as that takes, 500k(k+1) microseconds |
| TcpWrite.Strlen | include/client/socket/TCP/socket_tcp.hpp:450 | the message is cut at its first NUL |
| TcpWrite.WriteMessage | include/client/socket/TCP/socket_tcp.hpp:462-532 | the bytes accepted are always exactly the prefix of the reported length, no write follows the last byte, and with progress and no failure all of the cut message is sent |
| Url.ParserBasicUrl | lib/parser_lib/urlparser_lib.cc:5-82 | the character machine equals the search-based reference on every string, errors included, and terminates |
| Url.ParserQueryUrl | lib/parser_lib/urlparser_lib.cc:84-182 | the query machine equals its reference on every string, errors included, and terminates |
| UrlProperties.MachinesAgree | lib/parser_lib/urlparser_lib.cc:12-180 | on every string both run off, both throw the same error, or scheme, TLS flag, host and port agree and the query machine's pieces plus fragment are the basic path |
| UrlProperties.SplitPrinted | lib/parser_lib/urlparser_lib.cc:12-64 | the parts of a printed URL are found where they were put |
| UrlShapes.HasShape | lib/parser_lib/urlparser_lib.cc:12-77 | every string is printed by one of the five shapes |
| UrlShapes.ParsesShape | lib/parser_lib/urlparser_lib.cc:12-77 | parsing a printed shape gives what the shape means: its parts, the port cut to 16 bits, the exception of stoi, or a cursor past the end |
| UrlShapes.ThrowsExactly | lib/parser_lib/urlparser_lib.cc:56-58 | both parsers throw invalid_argument iff the URL has a port text without a number, out_of_range iff its number fits no int |
| UrlProperties.BasicRoundTrip | lib/parser_lib/urlparser_lib.cc:32-77 | parsing a printed URL gives back scheme, host, port and path |
| UrlProperties.QueryRoundTrip | lib/parser_lib/urlparser_lib.cc:112-176 | parsing a printed URL with query and optional fragment gives back exactly its parts |
| UrlProperties.QueryRoundTripWithParameters | lib/parser_lib/urlparser_lib.cc:148-177 | and with a parameter list, its last-write-wins map, whatever the fragment |
| UrlProperties.SyncParserBasicUri | include/client/clientapp/clientTool.hpp:176-186 | the client result carries the parsed fields, errors passed on |
| UrlProperties.SyncParserQueryUrl | include/client/clientapp/clientTool.hpp:188-201 | the client's query result carries the parsed fields, errors passed on, and its full_path is the basic machine's path without its fragment |
| UrlProperties.FullPathIsBasicPath | include/client/clientapp/clientTool.hpp:188-201 | on every URL the two clients succeed together, and a reached full_path is the basic machine's path without its fragment |
| UrlProperties.ClientRoundTrip | include/client/clientapp/clientTool.hpp:188-201 | on a printed URL every part comes back and full_path is path "?" query, whatever the fragment |
| UrlPort.PortRoundTrip | lib/parser_lib/urlparser_lib.cc:56-58 | a decimal port below 65536 survives printing, std::stoi and uint16_t |
| UrlPort.StoiOfNumber | lib/parser_lib/urlparser_lib.cc:56-58 | white space, at most one sign and digits, followed by anything else, read as the signed place value, or out_of_range when no int holds it |
| UrlPort.StoiThrowsExactly | lib/parser_lib/urlparser_lib.cc:56-58 | invalid_argument iff the text has no such number |
| UrlPort.ToPortIsCongruent | lib/parser_lib/urlparser_lib.cc:56-58 | the port is below 65536 and congruent to the number |
| UrlParameters.ParserQueryParameter | include/client/Parser/Urlparser.hpp:88-118 | the cursor loop equals its function, every substring in range, the cursor strictly advancing |
| UrlParameters.ParametersRoundTrip | include/client/Parser/Urlparser.hpp:97-117 | parsing the printed "?k=v&..." of any well-formed non-empty list gives its last-write-wins map |
| UrlItems.ParsesEveryText | include/client/Parser/Urlparser.hpp:88-118 | every text is a list of items between '&', and each list that makes it up gives the map the loop returns, items without '=' included |

## Left out

- Real sockets, DNS, `select` timing, OpenSSL and object lifetimes: replaced by the oracle or not modelled.
- Data races on the deque, which is pushed under one mutex and popped under another: each deque operation is atomic here.
- Wake-up liveness of the condition variable: notifications may be missed in the original, since some are sent without the waiters' mutex; progress is claimed at the level of enabled steps.
- The object's lifetime beyond clients not stepping once a destructor has returned, which `PoolLoss.Proper` asks of a losing run.
- Tasks that throw, empty `std::function` objects, move construction of the pool and the `THREAD` singleton.
- Integer widths: `int` scan indices, `int` retry counts times 1000 and `size_t` sums are unbounded integers here.
- The main loop of `async_read_until_tls`: it compares at the end of the readable bytes and goes on after posting on a zero read (include/client/socket/SSL/socket_ssl.hpp:485, 532-552), so only its retry is modelled.
- `M_retryTcpwrite`, `M_ssl_write_retry` and the count reported when a write fails: their start offsets and guards support no useful claim.
- Exceptions for a negative descriptor or null TLS handles in the retry functions: the model takes an open socket.
- Backoff.RetryHandshake: only the WANT_READ and WANT_WRITE path; the other errors rebuild the TLS object.
- TcpWrite.WriteMessage: a socket that accepts nothing for ever is the status `Writing` for any number of answers, not an endless loop.
- A delimiter that arrives with the last permitted retry read is appended but not looked for; the exact conditions above account for that.
- URLs whose path has neither '?' nor '#' in the query machine, and unset fields: modelled as the initial values, the port as an option; IPv6 literals are not treated specially by the code either.
- The status numbers the asynchronous calls return at once, which do not follow their own comments.
- `M_findChunkedsize`, address resolution and the HTTP template builder.
