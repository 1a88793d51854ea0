# Verified model of the IPC benchmark

The repository measures six ways for two processes to exchange messages. This project models what those
programs rely on, in Dafny, and proves it for all inputs, all runs and all interleavings:

- the **framed byte ring** (`BlockingRing`, `LockFreeRing`, over `Frames` and `RingLayout`): messages behind a
  4-byte length in a circular byte array, as classes whose methods work on the array in place, refined to a
  bounded first-in-first-out queue of messages, in the `size_t` and in the 32-bit form;
- the **lock-free ring under interleaving** (`ConcurrentRing`, `ConcurrentProgress`): one writer and one reader,
  stepping by single position loads, single copied bytes and single position stores, linearizable to that queue;
  each call can return by its own steps from every point;
- the **lock-free echo protocol** (`FutexControl`, `FutexProgress`, `FutexEcho`, `FutexRuns`): client and server
  share one ring in both directions with no lock, two flags and two futexes; its io_uring form (`Uring`, `UringLift`)
  has the same runs;
- the **mutex echo** (`MutexEcho`), and the **three-party handoff** between main thread, client thread and server
  over two interrupts (`Handoff` for control, `HandoffEcho` with the data, `HandoffRuns`, `Interrupts`);
- **how the echoes end** (`FutexEnding`, `MutexEnding`, `HandoffEnding`): exactly when the server, or the join, can
  still return, and exactly when an operation counts that nobody answered;
- **message integrity** (`Messages`, `Generator`): the rotate-and-add checksum, the validator, the message builder and
  the generator of its payload, with the offsets of the LP64 layout (a 32-byte header whose payload starts at 28);
- **exact transfers over a socket** (`Stream`) under every schedule of partial transfers, retries and failures,
  and the length-prefixed messages on top of them.

The process loops are state machines: a datatype of program counters for each process, one step function or
relation for each (`FutexControl.CStep` and `SStep`, `FutexEcho.CNext` and `SNext`, `MutexEcho.CNext` and `SNext`,
`HandoffEcho.MNext`, `TNext` and `SNext`, `ConcurrentRing.WStep` and `RStep`, `Uring.UNext`), one branch for each
step of the source. `IsRun` is any finite interleaving from the initial state; the main results speak about the
last state of any run, and so about every state, since every front of a run is a run. The clock may end a loop
whenever it is looked at. The auxiliary fields named in the comments record history and are read by no step's real effect.

## Assumptions

Words are little-endian, as the 4-byte `memcpy` from a `size_t` at shm_blocking.c:99-104 needs, and structures are
laid out as on LP64. Memory is sequentially consistent; the acquire and release orders on positions, flags and
futex words are taken to justify that. System calls succeed in the shared-memory models, except that a futex wait
may find its word changed and condition variables may wake spuriously; the socket model lets every call fail.
Lock-free runs start from the state after lfshm_blocking.c:93: `ready` is published at line 91, before the two flags
are cleared, so nothing is claimed about a client that starts in between.

The echo machines take a whole ring operation as one step. That is a result, not an assumption: the two sides are
never inside ring operations together (`FutexRuns.ExclusiveWithoutLock`, or the mutex), and a ring operation
during which the other side is outside its own is one atomic queue operation
(`ConcurrentRing.WriteAloneIsAtomic`, `ReadAloneIsAtomic`).

## Where the properties one would expect fail

- **The server need not return.** A client that leaves while the server is anywhere in its wait leaves it there for
  ever; in every other reachable state the server can still shut down. It can be left asleep exactly as long as it
  has not itself left its loop (`ServerReturnsExactly` in `FutexEnding` and `MutexEnding`; in `HandoffEnding` the
  thread's last exchange makes the condition longer). Nothing else stops an echo protocol early, but for the next case.
- **The join need not return.** If the first test of the clock already ends the main thread's loop, the thread may
  have passed its own test of `should_exit`; it then sends what the fresh buffer holds, the server drops that as
  invalid without a reply, and thread, server and main thread wait for one another. This can happen exactly if the
  fresh buffer fits the ring and is not a valid message (`HandoffEnding.JoinHangsExactly`).
- **Not every counted operation was echoed.** The shutdown raises the response flag with no response written. One
  operation more than the server echoed is counted exactly when the shutdown found `message_available` set and a
  client past its `ready` test, and that client has counted since (`UnservedExactly`); it happens from
  every initial state (`UnservedHappens`).
- In the 32-bit form the wrap test at lfshm_blocking.c:154 misses a copy that leaves the ring exactly on rings of
  more than two thirds of 2^32 bytes (`WrapTestExact`), where three ordinary messages suffice to get there
  (`ReachOverrun`); the rounding to powers of two makes 2^31 the last safe size.
- In the `size_t` form a message of 2^32 bytes or more is written whole but framed by its length modulo 2^32; reading
  it breaks the framing, and nothing shorter does (`BlockingRing.Ring.Read`).
- A one-byte change goes unnoticed in the sequence number, the padding, the timestamp and the four bytes that a
  message claims but the builder never writes (`OneByteVerdict`). An exchange of adjacent bytes that differ by
  one goes unnoticed after suitable data (`SwapDetected`), which exists for every such pair (`SwapUnnoticed`).
- The socket client counts an operation as a full valid message after receiving any non-empty front of its echo,
  because its own request is still in the buffer (`TruncatedEchoCounts`).
- The comments at shm_blocking.c:87 and lfshm_blocking.c:194 speak of one reserved byte; the tests below them keep
  two free. The model follows the code.
- readme.md:19 gives a message limit of half the ring. The ring's write keeps it, but both process loops read with a
  limit of 128 KiB: a longer message would stay at the head unread (`BlockingRing.Ring.Read` fails and changes nothing).
  The clients send far shorter ones.

## Model

| member | source | states |
|---|---|---|
| Frames.EncodeAppend | shm_blocking.c:92-125 | appending a message to a queue appends its frame to the queue's bytes |
| Frames.HeaderExact | shm_blocking.c:26-47 | the length field reads back as the message length if and only if that is below 2^32 |
| Frames.EncodeInjective | shm_blocking.c:17-131 | the bytes of a queue of 32-bit-sized messages determine it: no message boundary is lost |
| RingLayout.HeldSplit | shm_blocking.c:29-63 | bytes lie contiguously around the ring if and only if both parts of any split do, the second where the first ends, so length and payload may wrap independently |
| RingLayout.Written | shm_blocking.c:92-128 | writing length and payload into free space behind a queue leaves exactly the queue with the message appended |
| RingLayout.ReadFront | shm_blocking.c:25-66 | the first frame holds the length modulo 2^32 and that much of the message; what is left is a framed queue if and only if the message is shorter than 2^32 |
| BlockingRing.Ring.CopyIn | shm_blocking.c:111-125 | a two-part copy puts n bytes around the ring from a position, touches no other byte, and yields the position behind them |
| BlockingRing.Ring.CopyOut | shm_blocking.c:49-63 | a two-part copy returns the n bytes held from a position, in order, and leaves the rest of the caller's buffer alone |
| BlockingRing.Ring.Write | shm_blocking.c:73-131 | succeeds if and only if len <= size/2 and used + len + 4 <= size - 2; success appends the message, failure changes nothing; the ring stays well formed |
| BlockingRing.Ring.Read | shm_blocking.c:17-70 | succeeds if and only if the queue is not empty and its head's length field is at most max_len; success returns and pops the head byte for byte, failure changes nothing; the framing survives exactly for heads shorter than 2^32 |
| LockFreeRing.WrapTestExact | lfshm_blocking.c:154 | the 32-bit sum hides a copy that leaves the ring, for some position and accepted length, if and only if size + size/2 exceeds 2^32 |
| LockFreeRing.PowerOfTwoSizes | lfshm_blocking.c:55 | of the sizes setup can choose, exactly those up to 2^31 are safe from that |
| LockFreeRing.ReachOverrun | lfshm_blocking.c:120-236 | on every unsafe size three ordinary messages, each accepted by write, lead to a ring whose next read would run over its end |
| LockFreeRing.Ring.Write | lfshm_blocking.c:177-236 | the 32-bit form, on every size a 32-bit position can address: same exact success condition and same effect as the size_t form |
| LockFreeRing.Ring.Read | lfshm_blocking.c:120-174 | the 32-bit form, wherever the wrap test does not miss: returns and pops the head exactly, or changes nothing |
| LockFreeRing.FirstInFirstOut | shm_blocking.c:17-131 | over any run of calls on the bounded queue, the messages accepted are those handed out followed by those still there, and the bytes in use never exceed size - 2 |
| LockFreeRing.QueueAnswers | shm_blocking.c:44-90 | the bounded queue takes a message if and only if it is at most half the ring and two bytes stay free, and gives its head if and only if there is one within the limit |
| LockFreeRing.Both | lfshm_blocking.c:120-236 | one call made on both forms in the same state gives the answer and the new queue of the bounded queue in each |
| LockFreeRing.Lockstep | lfshm_blocking.c:120-236 | both forms, driven by any sequence of calls from empty rings, give answer for answer what the bounded queue gives |
| ConcurrentRing.CopyExact | lfshm_blocking.c:153-167 | every address of a two-part copy is the one intended and lies in the ring, and the 32-bit sum does not wrap |
| ConcurrentRing.WCheckKeeps | lfshm_blocking.c:183-197 | the writer's space check with a stale read position still answers exactly what was true when it loaded that position |
| ConcurrentRing.WByteKeeps | lfshm_blocking.c:199-230 | each byte the writer copies leaves every byte of the queue in place |
| ConcurrentRing.RStoreHolds | lfshm_blocking.c:153-170 | when the reader stores its position it has copied exactly the head of the queue, whatever the writer did meanwhile |
| ConcurrentRing.HistoryGrows | lfshm_blocking.c:120-236 | what has taken effect, or returned, at one point of a run stays so at every later point |
| ConcurrentRing.LockFreeLinearizable | lfshm_blocking.c:120-236 | in every interleaving of one writer and one reader the calls take effect one at a time (a write at its write_pos store, a read at its read_pos store), as a bounded queue allows, and return what that queue answers; the history only grows, and where a side is idle it holds exactly that side's returned calls, so each takes effect between call and return |
| ConcurrentRing.NoByteInUseOverwritten | lfshm_blocking.c:183-230 | while the writer copies, it stays inside the ring and off every byte the reader may still copy, and all those bytes are in place |
| ConcurrentRing.LegalIsFifo | lfshm_blocking.c:120-236 | in every legal history the messages come out whole, once, and in the order they went in |
| ConcurrentRing.WriteAloneIsAtomic | lfshm_blocking.c:177-236 | a write during which no read is under way succeeds exactly if the queue it found has room, and appends whole or changes nothing |
| ConcurrentRing.ReadAloneIsAtomic | lfshm_blocking.c:120-174 | a read during which no write is under way succeeds exactly if the queue it found has a head that fits, and pops exactly it or changes nothing |
| ConcurrentProgress.ReaderAdvances | lfshm_blocking.c:120-174 | in every state a reader in a call has a step that brings it nearer to its return |
| ConcurrentProgress.ReaderNeverFallsBack | lfshm_blocking.c:120-174 | none of its own steps takes it further away |
| ConcurrentProgress.OtherSideStays | lfshm_blocking.c:120-236 | no step of one side changes where the other is in its call |
| ConcurrentProgress.WriterAdvances | lfshm_blocking.c:177-236 | in every state a writer in a call has a step that brings it nearer to its return |
| ConcurrentProgress.WriterNeverFallsBack | lfshm_blocking.c:177-236 | none of its own steps takes it further away |
| ConcurrentProgress.ReadReturns | lfshm_blocking.c:120-174 | from the end of every run a reader in a call returns by at most ring size + 9 steps of its own, with the answer of the queue it acts on |
| ConcurrentProgress.WriteReturns | lfshm_blocking.c:177-236 | from the end of every run a writer in a call returns by at most length + 7 steps of its own |
| ConcurrentProgress.EveryReadAnswered | lfshm_blocking.c:120-174 | from the end of every run with the reader idle, a call with any limit can return by its own steps exactly the queue's answer for that limit |
| ConcurrentProgress.EveryWriteAnswered | lfshm_blocking.c:177-236 | from the end of every run with the writer idle, a call with any message can return by its own steps exactly the queue's answer for that message |
| Messages.RotateExactly | benchmark.c:68 | the top bit goes to the bottom and the others move up by one |
| Messages.CalculateChecksum | benchmark.c:64-72 | the loop computes the checksum function about which the detection results are proved |
| Messages.ChecksumAppend | benchmark.c:64-72 | the checksum of a concatenation continues from the checksum of its front |
| Messages.StepInjective | benchmark.c:67-70 | one checksum step is injective in the sum and in the byte |
| Messages.DifferencePersists | benchmark.c:64-72 | two different sums stay different over any common remaining data |
| Messages.OneByteDetected | benchmark.c:64-72 | in data of any length, any change of one byte changes the checksum |
| Messages.SwapDetected | benchmark.c:64-72 | exchanging two adjacent bytes a and b goes unnoticed if and only if they are equal, or differ by one and the rotated sum before them plus the smaller is 2^32 - 1 modulo 2^32 |
| Messages.EverySumReached | benchmark.c:64-72 | every 32-bit value is the checksum of some data |
| Messages.SwapUnnoticed | benchmark.c:64-72 | for any two bytes that differ by one, and any data behind them, there is data before them after which their exchange goes unnoticed |
| Messages.VerdictExactly | benchmark.c:75-106 | for every buffer and claimed length, the first failing check, on the bytes themselves: EF BE AD DE, the length in little-endian order, BE BA FE CA at its place, the checksum of the bytes between |
| Messages.ValidExactly | benchmark.c:75-106 | a message is valid if and only if all of these are in place and the length is in bounds |
| Messages.OneByteVerdict | benchmark.c:75-106 | the exact verdict on a valid message after any one-byte change, position by position |
| Generator.ClosedForm | benchmark.c:123-125 | the n-th state is 1103515245^n times the seed plus 12345 times the sum of the lower powers, modulo 2^32 |
| Generator.SeedsStayDistinct | benchmark.c:123-125 | distinct seeds have distinct states at every index |
| Generator.PayloadExactly | benchmark.c:124-126 | payload byte i is bits 16 to 23 of that state after i + 1 steps |
| Generator.FirstBytes | benchmark.c:123-127 | the first request's payload starts 198, 126, 129, 107 |
| Messages.SizesDrawn | benchmark.c:110-115 | every size in the range is drawn, by the random numbers that differ from its place in the range by a multiple of the range |
| Messages.RandomMessage | benchmark.c:109-135 | the message built in place: each header field, the generator's payload for its sequence number, its checksum and the end marker, at the drawn size; padding and all bytes beyond are unchanged |
| Messages.BuiltValidates | benchmark.c:75-135 | a built message validates at its length if and only if that length fits the size field |
| Messages.TimestampOverwrite | shm_blocking.c:281-282 | a built message whose timestamp is overwritten is a message built at that later time |
| Messages.BuildOnBuilds | benchmark.c:109-135 | every buffer and payload length have a built message; so a client at the top of its loop can always go on |
| Messages.FreshIsNumbered | benchmark.c:119-123 | a request built over a buffer numbered k is numbered k + 1, modulo 2^32 |
| Messages.FreshChecks | benchmark.c:75-135 | the bytes the client sends, cut at the size field, validate |
| FutexControl.NoStaleMatch | lfshm_blocking.c:26-35 | a futex word at most three increments on equals the loaded one only if nothing was added |
| FutexControl.ClientKeepsWakeups | lfshm_blocking.c:26-46 | each client step keeps: whoever sleeps with its condition true has the other side's increment or wake still to come |
| FutexControl.ServerKeepsWakeups | lfshm_blocking.c:26-46 | the same for each server step, shutdown included |
| FutexControl.ControlKeeps | lfshm_blocking.c:252-382 | every step of either side keeps the whole protocol invariant: turns, flags, wakeups, word gaps, call counts, and operations against echoes |
| FutexProgress.StuckOnlyAfterClientExit | lfshm_blocking.c:26-46 | neither side has a step left if and only if the client has left its loop and the server sleeps or is done |
| FutexProgress.Progress | lfshm_blocking.c:252-382 | every step of either side counts an operation or lowers a bounded rank |
| FutexEcho.RingOperationsSucceed | lfshm_blocking.c:252-360 | under the invariant, whatever ring operation either side is in succeeds |
| FutexEcho.ControlFollows | lfshm_blocking.c:252-382 | a step with data is a step of the control skeleton in which ring operations succeed |
| FutexEcho.Keeps | lfshm_blocking.c:252-382 | every step of either side keeps the invariant on data: where the request is, what the buffers hold, what was counted |
| FutexRuns.ExclusiveWithoutLock | lfshm_blocking.c:252-360 | in every run client and server are never both inside a ring operation, each wait ends with its condition true, the ring holds at most one message, and no ring operation fails |
| FutexRuns.NoLostWakeup | lfshm_blocking.c:26-46 | in every run a sleeper whose condition holds has its waker's increment or wake still to come, and nothing is stuck unless the client has left |
| FutexRuns.SignalsCounted | lfshm_blocking.c:42-46 | at every point of every run each signal of either side, the shutdown's two included, has incremented its futex word exactly once |
| FutexRuns.BoundedRounds | lfshm_blocking.c:252-360 | a run with n counted operations has at most 991(n + 1) states |
| FutexRuns.AtMostThreeCalls | lfshm_blocking.c:26-35 | between entering a wait and any later point of it at most three futex_wait calls are made, counted over the steps of the run |
| FutexRuns.WordNeverStale | lfshm_blocking.c:26-46 | between loading the word and the kernel's comparison at most two increments fall, three once the shutdown signals, so the 32-bit words match if and only if nothing happened |
| FutexRuns.EndToEnd | lfshm_blocking.c:305-360 | the k-th counted response is the k-th request byte for byte, numbered k modulo 2^32 and valid; bytes is the sum of sizes, the latency count is min(ops, MAX_LATENCIES); counted operations exceed echoes by at most one, and that only after the shutdown (exactly when: FutexEnding.UnservedExactly) |
| FutexRuns.ShutdownReleasesClient | lfshm_blocking.c:370-382 | once the shutdown has raised the response flag a waiting client finds it set, a sleeping one has its wake to come; when the server is done none sleeps, ready is cleared and message_available raised |
| FutexEnding.Go | lfshm_blocking.c:252-382 | every step a side has in the control skeleton it has, with data, at the end of any run |
| FutexEnding.StopsExactly | lfshm_blocking.c:252-382 | a run cannot go on if and only if the client sleeps or has left and the server sleeps or is done |
| FutexEnding.RingIsQueue | lfshm_blocking.c:252-360 | the echo's ring operations succeed exactly where the bounded queue's do, with a read limit of 131072 |
| FutexEnding.AbandonedHangs | lfshm_blocking.c:252-254 | once the client has left with the server anywhere in its wait, that stays so in every continuation, each step lowers a bounded rank, and the end is the server asleep |
| FutexEnding.ServerReturnsExactly | lfshm_blocking.c:252-382 | in every reachable state some continuation reaches the server's return if and only if the client has not left it in its wait; and some continuation leaves it asleep for ever if and only if it has not left its loop |
| FutexEnding.ClientFirstHangsServer | lfshm_blocking.c:252-254 | from every initial state a run stops with the client gone and the server asleep |
| FutexEnding.UnservedExactly | lfshm_blocking.c:370-382 | more operations are counted than echoed, by one, if and only if the store at line 376 met message_available set and a client in its wait, and that client has counted since |
| FutexEnding.UnservedHappens | lfshm_blocking.c:370-382 | from every initial state a run counts one operation with none echoed |
| Uring.UInvKept | lfshm_nonblocking.c:60-111 | every step keeps at most one request in flight and one completion per request, each marked seen once, on EAGAIN too |
| Uring.Simulates | lfshm_nonblocking.c:60-111 | every step, seen from outside the wait's inner block, is a step of the blocking echo or none |
| Uring.Refines | lfshm_nonblocking.c:60-111 | every run of the io_uring echo yields a run of the blocking echo, no longer, that ends in the state it stands for, so every result about those runs carries over |
| Uring.UringInherits | lfshm_nonblocking.c:60-111 | the wait ends only with its condition true; at most one request is in flight, a blocked client whose condition holds has the server's signal to come, it is never blocked on a server that has no step left, and a run with n operations has at most 3964(n + 1) states |
| UringLift.ClientStopsExactly | lfshm_nonblocking.c:60-111 | in every reachable state the client has a step if and only if it has not left and does not wait for a completion that is not there; so a completion with EAGAIN never stops it |
| UringLift.StopsExactly | lfshm_nonblocking.c:60-111 | neither side has a step left if and only if the client has left and the server sleeps or is done |
| UringLift.Lifts | lfshm_nonblocking.c:60-111 | wherever a uring run stands for the end of a blocking run it can follow every continuation of that run |
| UringLift.LiftsRun | lfshm_nonblocking.c:60-111 | every run of the blocking echo is, in its end, one of the io_uring echo |
| MutexEcho.ClientSucceeds | shm_blocking.c:280-327 | under the invariant the client's ring operations and its validation succeed, so it never leaves its loop through an error branch |
| MutexEcho.ServerSucceeds | shm_blocking.c:220-251 | under the invariant the server's ring operations and its validation succeed, so it never skips a reply |
| MutexEcho.Keeps | shm_blocking.c:207-352 | every critical section, and every spurious wakeup, keeps the invariant |
| MutexEcho.StepCost | shm_blocking.c:207-352 | every step lowers a bounded rank, unless it counts an operation or is a spurious wakeup |
| MutexEcho.EndToEnd | shm_blocking.c:280-352 | the k-th counted response is the k-th request, byte for byte, numbered k and valid; the statistics are theirs; counted operations exceed answers by at most one, and that only after the shutdown (exactly when: MutexEnding.UnservedExactly) |
| MutexEcho.NeverStuck | shm_blocking.c:207-352 | no ring operation and no validation fails, the ring holds at most one message, a run stops only after the client left, and a run with n operations and s spurious wakeups has at most 77(n + 1) + 2s states |
| MutexEnding.StopsExactly | shm_blocking.c:207-352 | a run cannot go on, but for spurious wakeups, if and only if the client waits or has left and the server waits or is done |
| MutexEnding.RingIsQueue | shm_blocking.c:220-327 | the echo's ring operations succeed exactly where the bounded queue's do |
| MutexEnding.AbandonedHangs | shm_blocking.c:220-224 | once the client has left with the server anywhere in its wait, that stays so; but for spurious wakeups each step lowers a bounded rank, and the end is the server waiting |
| MutexEnding.ServerReturnsExactly | shm_blocking.c:207-352 | in every reachable state some continuation reaches the server's return if and only if the client has not left it in its wait; and some continuation leaves it waiting if and only if it has not left its loop |
| MutexEnding.UnservedExactly | shm_blocking.c:337-352 | more operations are counted than answered, by one, if and only if the shutdown found message_available set and its client has counted since |
| MutexEnding.UnservedHappens | shm_blocking.c:337-352 | from every initial state a run counts one operation with none answered |
| Interrupts.Interrupt.TryRead | interrupt.c:97-122 | a read takes a value if and only if a signal is pending: all of them from an eventfd, one from a pipe |
| Interrupts.Interrupt.Wait | interrupt.c:112-151 | whatever arrives during each of its polls, a wait returns once a read finds a signal, and has taken what one read takes; while it has not returned nothing is pending |
| Interrupts.OfferedExactly | interrupt.c:112-151 | what the wait finds is what was pending at the start, or else what arrived in the first poll in which anything did |
| Interrupts.WaitsExactly | interrupt.c:112-151 | n pending signals satisfy one wait of an eventfd and n waits of a pipe |
| Interrupts.KindsAgree | interrupt.c:85-151 | the two kinds satisfy equally many waits if and only if at most one signal is pending |
| Handoff.Keeps | shm_nonblocking.c:217-421 | every step of main thread, client thread and server, and every spurious wakeup, keeps the control invariant |
| Handoff.StepCost | shm_nonblocking.c:217-421 | every step lowers a bounded rank, unless it counts an operation or is a spurious wakeup |
| Handoff.StuckExactly | shm_nonblocking.c:217-421 | no party has a step left if and only if the join has returned and the server waits or is done, or the join waits for the answer to a dropped request |
| HandoffEcho.ControlFollows | shm_nonblocking.c:217-421 | a step with data is a step of the control skeleton: requests the main thread built fit and validate, and what is in the ring can be read |
| HandoffEcho.Keeps | shm_nonblocking.c:217-421 | every step keeps the invariant on the data: where the request is, what the one buffer holds, what was sent and counted |
| HandoffRuns.OneOwner | shm_nonblocking.c:266-390 | in every run main thread and client thread never both own the message buffer, no interrupt waited on holds two signals, the ring holds at most one message, and every operation on it and validation of a built message succeeds |
| HandoffRuns.EndToEnd | shm_nonblocking.c:266-390 | the k-th counted response is the k-th request byte for byte, valid, and numbered k after what the fresh buffer held; bytes and latency count are theirs |
| HandoffRuns.EventFdIsPipe | shm_nonblocking.c:266-405 | a sequence of states is a run with eventfds if and only if it is one with pipes |
| HandoffEnding.StopsExactly | shm_nonblocking.c:217-421 | a run cannot go on, but for spurious wakeups, if and only if no party is ready |
| HandoffEnding.RingIsQueue | shm_nonblocking.c:229-305 | the ring operations succeed exactly where the bounded queue's do |
| HandoffEnding.JoinReturns | shm_nonblocking.c:266-421 | a run stops only when the main thread has joined the client thread, wherever the shutdown falls, or in the one deadlock, before any operation; the thread starts at most one exchange after should_exit; steps per operation are bounded |
| HandoffEnding.JoinHangsExactly | shm_nonblocking.c:392-395 | from an initial state some run deadlocks before the join if and only if the fresh buffer fits the ring and does not validate |
| HandoffEnding.ServerReturnsExactly | shm_nonblocking.c:217-421 | in every reachable state some continuation reaches the server's return if and only if it is not the case that the main thread has left its loop, the server is in its wait with nothing to read, and no request is to come that fits; and some continuation leaves it waiting if and only if it has not left its loop |
| HandoffEnding.DoomedAfterJoin | shm_nonblocking.c:229-233 | once the join has returned, that condition is just that the server is in its wait |
| HandoffEnding.UnservedExactly | shm_nonblocking.c:407-421 | more operations are counted than answered, by one, if and only if the shutdown found message_available set and the main thread has counted since |
| HandoffEnding.UnservedHappens | shm_nonblocking.c:407-421 | from every initial state a run counts one operation with none answered |
| Stream.ReadNonblocking | uds_nonblocking.c:15-40 | under every schedule the next bytes of the stream land in order and nothing else changes; the result is -1 if and only if a call failed, which then was the last; otherwise it is n, or fewer exactly at the end of the stream |
| Stream.WriteNonblocking | uds_nonblocking.c:43-67 | under every schedule exactly the n bytes are emitted in order; or, if and only if a call failed, which then was the last, -1 and a proper front of them |
| Stream.ReceiveResponse | uds_nonblocking.c:271-302 | header then body: what the client makes of any stream and buffer, including a stream that ends inside the header or the body; nothing if and only if a call failed or the stream was empty |
| Stream.ResponseExactly | uds_nonblocking.c:282-287 | after a whole header a response is refused if and only if its size field is below 36 or above 131072, and otherwise counts with that size |
| Stream.WholeMessage | uds_nonblocking.c:271-302 | a message delimited by its size field at the head of any stream is received whole, and judged valid if and only if it is |
| Stream.TruncatedEchoCounts | uds_nonblocking.c:271-314 | of the fronts of its own valid request, the client counts every one but the empty as the full valid message |
| Stream.WireInjective | uds_nonblocking.c:282-290 | messages delimited by their size fields can be concatenated in only one way: the stream determines them |
| Stream.PrepareRequest | uds_nonblocking.c:259-260 | the buffer afterwards is a message of the drawn size built at the time of the later clock reading |
| Stream.RunClient | uds_nonblocking.c:257-315 | over any stream of delimited messages the client receives exactly those messages and emits exactly its requests, one for one; it stops early only at the first failed call, with the rounds before it counted, or when the stream has no whole message left; if the stream is in all the echo of what it emitted, each reply is its request; operations, bytes and latency count are theirs |

## Left out

- Setup, mapping and freeing of shared memory, sockets and threads: operating-system calls without internal logic.
- uds_blocking.c and both socket servers: they take one recv to return everything asked for, so nothing about fragmentation holds there.
- calculate_stats, print_stats, CPU times and averages, option parsing in ipc_benchmark.c: they would only add easy members.
- Latency values: only their number is modelled; clock readings are parameters or nondeterministic choice.
- Wrap-around of the 64-bit operation and byte counters: `ops` and `bytes` are unbounded.
- Weak memory: see Assumptions.
- Interrupted or spuriously returning futex waits, failing io_uring calls (the client ignores the wait's result at lfshm_nonblocking.c:407) and failing interrupts.
- The copy of the lock-free ring in lfshm_nonblocking.c and of the mutex ring in shm_nonblocking.c: modelled once, in the form of lfshm_blocking.c and shm_blocking.c.
- memcpy inside a ring write or read of the sequential classes: one bulk assignment, not a byte at a time.
- HandoffEcho.Keeps: a fresh buffer whose size field leads out of it is not modelled; the thread would then copy bytes from beyond it.
- LockFreeRing.Ring.Read: where the wrap test misses, the copy leaves the ring, and what it then reads is not modelled.
- Stream.RunClient: a schedule is finite and afterwards every call moves all it can, so a peer that never answers and never closes is not modelled.
- The numbering of requests in uds_nonblocking.c, whose client never sets the first number: nothing is claimed about it.
