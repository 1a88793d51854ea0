/** The control skeleton of the lock-free echo (lfshm_blocking.c:26-46, 239-388): program counters, flags
    and futex words of client and server, apart from the bytes they move. A step is one atomic access,
    one system call, or one whole ring operation; that ring operations of the two sides never overlap is
    part of the invariant. Nothing here takes a lock. */
module FutexControl {
  import opened Bytes
  import opened Config

  datatype Client =
    | CTop                  // testing the clock
    | CWriting              // in ring_buffer_write
    | CSet | CInc | CWake   // in futex_signal: store the flag, increment the word, wake
    | CReady                // testing ready
    | CTest | CWord | CRecheck | CWait | CAsleep  // in futex_wait_for
    | CReading              // in ring_buffer_read
    | CClear                // clearing response_available
    | CCount                // updating the statistics
    | CExit

  datatype Server =
    | STop
    | STest | SWord | SRecheck | SWait | SAsleep
    | SReading | SClear | SWriting
    | SSet | SInc | SWake                   // signal the client
    | SReady                                // shutdown: clearing ready
    | SFinSet | SFinInc | SFinWake          // shutdown: signal the client
    | SOwnSet | SOwnInc | SOwnWake | SDone  // shutdown: signal the server's own futex

  /** One side's futex: the increments so far, of which the word shows the low 32 bits; the count when its
      waiter last loaded the word; and (auxiliary) the futex_wait calls made in the current wait. */
  datatype Futex = Futex(incs: nat, val: nat, calls: nat)

  /** The client's statistics; auxiliary are served (echoes written) and bogus (responses the shutdown alone
      raised for a client that waits). */
  datatype Tally = Tally(ops: nat, latencies: nat, served: nat, bogus: nat)

  /** The shared flags; turn (the server owns the ring) is auxiliary. */
  datatype Bits = Bits(ready: bool, msgAvail: bool, respAvail: bool, turn: bool)

  /** cw and sw are the futexes the client and the server wait on. */
  datatype Control = Control(c: Client, s: Server, b: Bits, cw: Futex, sw: Futex, tally: Tally)

  ghost predicate ControlInit(k: Control) {
    k == Control(CTop, STop, Bits(true, false, false, false), Futex(0, 0, 0), Futex(0, 0, 0), Tally(0, 0, 0, 0))
  }

  /** The client's step; `ok` is the result of the ring operation it completes, if it completes one. */
  function CStep(k: Control, ok: bool): Control {
    match k.c
    case CWriting => k.(c := if ok then CSet else CExit)
    case CSet => k.(c := CInc, b := k.b.(msgAvail := true, turn := true))
    case CInc => k.(c := CWake, sw := k.sw.(incs := k.sw.incs + 1))
    case CWake => k.(c := CReady, s := if k.s.SAsleep? then STest else k.s)
    case CReady => k.(c := if k.b.ready then CTest else CExit, cw := k.cw.(calls := 0))
    case CTest => k.(c := if k.b.respAvail then CReading else CWord)
    case CWord => k.(c := CRecheck, cw := k.cw.(val := k.cw.incs))
    case CRecheck => k.(c := if k.b.respAvail then CTest else CWait)
    case CWait =>
      k.(c := if U32(k.cw.incs) == U32(k.cw.val) then CAsleep else CTest, cw := k.cw.(calls := k.cw.calls + 1))
    case CReading => k.(c := CClear)
    case CClear => k.(c := CCount, b := k.b.(respAvail := false))
    case CCount =>
      k.(c := CTop, tally := k.tally.(ops := k.tally.ops + 1,
                                      latencies := if k.tally.latencies < MAX_LATENCIES then k.tally.latencies + 1
                                                   else k.tally.latencies))
    case _ => k
  }

  function SStep(k: Control, ok: bool): Control {
    match k.s
    case STest => k.(s := if k.b.msgAvail then SReading else SWord)
    case SWord => k.(s := SRecheck, sw := k.sw.(val := k.sw.incs))
    case SRecheck => k.(s := if k.b.msgAvail then STest else SWait)
    case SWait =>
      k.(s := if U32(k.sw.incs) == U32(k.sw.val) then SAsleep else STest, sw := k.sw.(calls := k.sw.calls + 1))
    case SReading => k.(s := if ok then SClear else STop)
    case SClear => k.(s := SWriting, b := k.b.(msgAvail := false))
    case SWriting => if ok then k.(s := SSet, tally := k.tally.(served := k.tally.served + 1)) else k.(s := STop)
    case SSet => k.(s := SInc, b := k.b.(respAvail := true, turn := false))
    case SInc => k.(s := SWake, cw := k.cw.(incs := k.cw.incs + 1))
    case SWake => k.(s := STop, c := if k.c.CAsleep? then CTest else k.c)
    case SReady => k.(s := SFinSet, b := k.b.(ready := false))
    case SFinSet =>
      k.(s := SFinInc, b := k.b.(respAvail := true, turn := false),
         tally := k.tally.(bogus := k.tally.bogus + (if k.b.msgAvail && CWaiting(k.c) then 1 else 0)))
    case SFinInc => k.(s := SFinWake, cw := k.cw.(incs := k.cw.incs + 1))
    case SFinWake => k.(s := SOwnSet, c := if k.c.CAsleep? then CTest else k.c)
    case SOwnSet => k.(s := SOwnInc, b := k.b.(msgAvail := true))
    case SOwnInc => k.(s := SOwnWake, sw := k.sw.(incs := k.sw.incs + 1))
    case SOwnWake => k.(s := SDone)
    case _ => k
  }

  /** The clock may end either loop at its top. */
  ghost predicate ClientNext(k: Control, k': Control, ok: bool) {
    && !k.c.CAsleep? && !k.c.CExit?
    && if k.c.CTop? then k' == k.(c := CExit) || k' == k.(c := CWriting) else k' == CStep(k, ok)
  }

  ghost predicate ServerNext(k: Control, k': Control, ok: bool) {
    && !k.s.SAsleep? && !k.s.SDone?
    && if k.s.STop? then k' == k.(s := SReady) || k' == k.(s := STest, sw := k.sw.(calls := 0)) else k' == SStep(k, ok)
  }

  // ---- regions of the two programs ----

  predicate CWaiting(c: Client) {
    c.CTest? || c.CWord? || c.CRecheck? || c.CWait? || c.CAsleep?
  }

  /** Between handing the turn over and reading the response. */
  predicate CPassive(c: Client) {
    c.CInc? || c.CWake? || c.CReady? || CWaiting(c)
  }

  predicate SWaiting(s: Server) {
    s.STest? || s.SWord? || s.SRecheck? || s.SWait? || s.SAsleep?
  }

  predicate Serving(s: Server) {
    s.SReading? || s.SClear? || s.SWriting? || s.SSet?
  }

  /** The shutdown has raised response_available. */
  predicate Released(s: Server) {
    s.SFinInc? || s.SFinWake? || s.SOwnSet? || s.SOwnInc? || s.SOwnWake? || s.SDone?
  }

  predicate Down(s: Server) {
    s.SFinSet? || Released(s)
  }

  predicate Closing(s: Server) {
    s.SReady? || Down(s)
  }

  // ---- the invariant ----

  /** Who may touch the ring. */
  ghost predicate Turns(k: Control) {
    && (k.b.ready <==> !Down(k.s))
    && (Serving(k.s) ==> k.b.turn)
    && (k.b.turn ==> CPassive(k.c) || k.c.CExit?)
    && (k.b.turn && k.c.CExit? ==> Down(k.s))
    && (k.b.turn && Released(k.s) ==> !CWaiting(k.c))
  }

  ghost predicate Flags(k: Control) {
    && (!Released(k.s) ==> (k.b.msgAvail <==> k.b.turn && !k.s.SWriting? && !k.s.SSet?))
    && (!Released(k.s) && !k.c.CExit? ==>
          (k.b.respAvail <==> !k.b.turn && (CPassive(k.c) || k.c.CReading? || k.c.CClear?)))
    && (Released(k.s) && (CWaiting(k.c) || k.c.CReading?) ==> k.b.respAvail)
    && (k.s.SOwnInc? || k.s.SOwnWake? || k.s.SDone? ==> k.b.msgAvail)
  }

  /** A sleeper whose condition holds has its waker's increment or wake still to come. */
  ghost predicate Wakeups(k: Control) {
    && (k.c.CWait? && k.b.respAvail && k.cw.val == k.cw.incs ==> k.s.SInc? || k.s.SFinInc?)
    && (k.c.CAsleep? && k.b.respAvail ==> k.s.SInc? || k.s.SWake? || k.s.SFinInc? || k.s.SFinWake?)
    && (k.s.SWait? && k.b.msgAvail && k.sw.val == k.sw.incs ==> k.c.CInc?)
    && (k.s.SAsleep? && k.b.msgAvail ==> k.c.CInc? || k.c.CWake?)
  }

  /** Increments between loading a futex word and the kernel's comparison, the pending one included. */
  ghost predicate Gaps(k: Control) {
    && (k.c.CRecheck? || k.c.CWait? ==>
          0 <= k.cw.incs - k.cw.val <= (if k.b.turn then 1 else if Released(k.s) then 3 else 2)
                                   - (if k.s.SInc? || k.s.SFinInc? then 1 else 0))
    && (k.s.SRecheck? || k.s.SWait? ==>
          0 <= k.sw.incs - k.sw.val <= (if k.b.turn then 2 else 1) - (if k.c.CInc? then 1 else 0))
  }

  /** The previous round's increment and wake that can still disturb a wait. */
  function CCredit(k: Control): nat {
    if !k.b.turn then 0 else if k.s.SInc? then 2 else if k.s.SWake? then 1 else 0
  }

  function SCredit(k: Control): nat {
    if k.b.turn then 0 else if k.c.CInc? then 2 else if k.c.CWake? then 1 else 0
  }

  /** futex_wait calls made so far in the client's wait. */
  ghost predicate CCallsBounded(k: Control) {
    var room := CCredit(k) + (if (k.c.CRecheck? || k.c.CWait?) && k.cw.val != k.cw.incs then 1 else 0);
    CWaiting(k.c) ==>
      && k.cw.calls <= (if k.c.CTest? || k.c.CAsleep? then 3 else 2)
      && (!k.b.respAvail ==> k.cw.calls + room <= (if k.c.CAsleep? then 3 else 2))
  }

  ghost predicate SCallsBounded(k: Control) {
    var room := SCredit(k) + (if (k.s.SRecheck? || k.s.SWait?) && k.sw.val != k.sw.incs then 1 else 0);
    SWaiting(k.s) ==>
      && k.sw.calls <= (if k.s.STest? || k.s.SAsleep? then 3 else 2)
      && (!k.b.msgAvail ==> k.sw.calls + room <= (if k.s.SAsleep? then 3 else 2))
  }

  /** One while an echo has been raised that the client has not counted. */
  function Uncounted(k: Control): nat {
    if k.c.CTop? || k.c.CWriting? || k.c.CSet? || (k.b.turn && !k.s.SSet?) then 0 else 1
  }

  /** Waiting for a response, or past the wait with it not yet counted. */
  predicate Awaiting(c: Client) {
    CWaiting(c) || c.CReading? || c.CClear? || c.CCount?
  }

  /** Operations counted against echoes written. A client not yet past its ready test when the shutdown
      comes leaves without counting. */
  ghost predicate Counts(k: Control) {
    var t := k.tally;
    && t.bogus <= (if Released(k.s) then 1 else 0)
    && if t.bogus == 1 then t.served + 1 == t.ops + (if Awaiting(k.c) then 1 else 0)
       else if k.c.CExit? || (Released(k.s) && CPassive(k.c) && !CWaiting(k.c)) then t.ops <= t.served
       else t.served == t.ops + Uncounted(k)
  }

  ghost predicate Latencies(k: Control) {
    k.tally.latencies == (if k.tally.ops < MAX_LATENCIES then k.tally.ops else MAX_LATENCIES)
  }

  ghost predicate ControlInv(k: Control) {
    && Turns(k) && Flags(k) && Wakeups(k) && Gaps(k)
    && CCallsBounded(k) && SCallsBounded(k) && Counts(k) && Latencies(k)
  }

  /** At most three increments away, the 32-bit words agree only if the counts do. */
  lemma NoStaleMatch(incs: nat, v: nat)
    requires 0 <= incs - v <= 3
    ensures U32(incs) == U32(v) <==> incs == v
  {
  }

  // ---- every step keeps it ----

  lemma ClientKeepsTurns(k: Control, k': Control)
    requires Turns(k) && Flags(k)
    requires ClientNext(k, k', true)
    ensures Turns(k')
  {
  }

  lemma ClientKeepsFlags(k: Control, k': Control)
    requires Turns(k) && Flags(k)
    requires ClientNext(k, k', true)
    ensures Flags(k')
  {
  }

  lemma ClientKeepsWakeups(k: Control, k': Control)
    requires Turns(k) && Flags(k) && Gaps(k) && Wakeups(k)
    requires ClientNext(k, k', true)
    ensures Wakeups(k')
  {
    if k.c.CWait? { NoStaleMatch(k.cw.incs, k.cw.val); }
  }

  lemma ClientKeepsGaps(k: Control, k': Control)
    requires Turns(k) && Flags(k) && Gaps(k)
    requires ClientNext(k, k', true)
    ensures Gaps(k')
  {
  }

  lemma ClientKeepsCCalls(k: Control, k': Control)
    requires Turns(k) && Flags(k) && Gaps(k) && CCallsBounded(k)
    requires ClientNext(k, k', true)
    ensures CCallsBounded(k')
  {
    if k.c.CWait? { NoStaleMatch(k.cw.incs, k.cw.val); }
  }

  lemma ClientKeepsSCalls(k: Control, k': Control)
    requires Turns(k) && Flags(k) && Gaps(k) && SCallsBounded(k)
    requires ClientNext(k, k', true)
    ensures SCallsBounded(k')
  {
    if k.c.CWait? { NoStaleMatch(k.cw.incs, k.cw.val); }
  }

  lemma ClientKeepsCounts(k: Control, k': Control)
    requires Turns(k) && Flags(k) && Counts(k)
    requires ClientNext(k, k', true)
    ensures Counts(k')
  {
  }

  lemma ServerKeepsTurns(k: Control, k': Control)
    requires Turns(k) && Flags(k)
    requires ServerNext(k, k', true)
    ensures Turns(k')
  {
  }

  lemma ServerKeepsFlags(k: Control, k': Control)
    requires Turns(k) && Flags(k)
    requires ServerNext(k, k', true)
    ensures Flags(k')
  {
  }

  lemma ServerKeepsWakeups(k: Control, k': Control)
    requires Turns(k) && Flags(k) && Gaps(k) && Wakeups(k)
    requires ServerNext(k, k', true)
    ensures Wakeups(k')
  {
    if k.s.SWait? { NoStaleMatch(k.sw.incs, k.sw.val); }
  }

  lemma ServerKeepsGaps(k: Control, k': Control)
    requires Turns(k) && Flags(k) && Gaps(k)
    requires ServerNext(k, k', true)
    ensures Gaps(k')
  {
  }

  lemma ServerKeepsCCalls(k: Control, k': Control)
    requires Turns(k) && Flags(k) && Gaps(k) && CCallsBounded(k)
    requires ServerNext(k, k', true)
    ensures CCallsBounded(k')
  {
    if k.s.SWait? { NoStaleMatch(k.sw.incs, k.sw.val); }
  }

  lemma ServerKeepsSCalls(k: Control, k': Control)
    requires Turns(k) && Flags(k) && Gaps(k) && SCallsBounded(k)
    requires ServerNext(k, k', true)
    ensures SCallsBounded(k')
  {
    if k.s.SWait? { NoStaleMatch(k.sw.incs, k.sw.val); }
  }

  lemma ServerKeepsCounts(k: Control, k': Control)
    requires Turns(k) && Flags(k) && Counts(k)
    requires ServerNext(k, k', true)
    ensures Counts(k')
  {
  }

  lemma LatenciesKept(k: Control, k': Control)
    requires Latencies(k) && (ClientNext(k, k', true) || ServerNext(k, k', true))
    ensures Latencies(k')
  {
  }

  lemma ClientKeeps(k: Control, k': Control)
    requires ControlInv(k) && ClientNext(k, k', true)
    ensures ControlInv(k')
  {
    ClientKeepsTurns(k, k');
    ClientKeepsFlags(k, k');
    ClientKeepsWakeups(k, k');
    ClientKeepsGaps(k, k');
    ClientKeepsCCalls(k, k');
    ClientKeepsSCalls(k, k');
    ClientKeepsCounts(k, k');
    LatenciesKept(k, k');
  }

  lemma ServerKeeps(k: Control, k': Control)
    requires ControlInv(k) && ServerNext(k, k', true)
    ensures ControlInv(k')
  {
    ServerKeepsTurns(k, k');
    ServerKeepsFlags(k, k');
    ServerKeepsWakeups(k, k');
    ServerKeepsGaps(k, k');
    ServerKeepsCCalls(k, k');
    ServerKeepsSCalls(k, k');
    ServerKeepsCounts(k, k');
    LatenciesKept(k, k');
  }

  lemma ControlKeeps(k: Control, k': Control)
    requires ControlInv(k) && (ClientNext(k, k', true) || ServerNext(k, k', true))
    ensures ControlInv(k')
  {
    if ClientNext(k, k', true) { ClientKeeps(k, k'); } else { ServerKeeps(k, k'); }
  }
}
