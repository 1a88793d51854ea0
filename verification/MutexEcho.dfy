/** The mutex echo of shm_blocking.c:207-352: client and server take turns on one ring inside critical
    sections and wait on condition variables, which may also wake spuriously. A step is one critical
    section (up to a wait), the test of the clock, or the check of a message outside the lock. */
module MutexEcho {
  import opened Bytes
  import opened Config
  import opened Frames
  import opened RingLayout
  import opened Messages

  datatype Client =
    | CTop | CLock           // testing the clock; about to lock with a request built
    | CWait | CWoken         // in cond_wait; about to relock
    | CCheck | CExit         // validating and counting the response

  datatype Server = STop | SLock | SWait | SWoken | SCheck | SReply | SFin | SDone

  datatype Control = Control(c: Client, s: Server, ready: bool, msgAvail: bool, respAvail: bool)

  datatype Stats = Stats(ops: nat, bytes: nat, latencies: nat)

  /** The two sides' message buffers, with the length last read into the client's. */
  datatype Hands = Hands(cbuf: seq<byte>, csize: nat, sbuf: Message)

  /** Auxiliary: turn (a request is unanswered), served, bogus (a response raised by the shutdown alone),
      spurious wakeups, requests written and responses counted. */
  datatype Aux = Aux(turn: bool, served: nat, bogus: nat, spurious: nat, sent: seq<Message>, got: seq<Message>)

  datatype State = State(k: Control, size: nat, ring: seq<Message>, h: Hands, stats: Stats, x: Aux)

  /** The state setup leaves, with the client's sequence number zeroed. */
  ghost predicate Init(st: State) {
    && st.k == Control(CTop, STop, true, false, false) && Fits(st.size, 0, LONGEST) && st.ring == []
    && |st.h.cbuf| == MAX_MSG_SIZE && Word(st.h.cbuf, 8) == 0
    && st.stats == Stats(0, 0, 0) && st.x == Aux(false, 0, 0, 0, [], [])
  }

  // ---- ring operations, by their contracts ----

  predicate CanWrite(st: State, m: Message) {
    Fits(st.size, |EncodeAll(st.ring)|, |m|)
  }

  predicate CanRead(ring: seq<Message>) {
    ring != [] && |ring[0]| <= MAX_MSG_SIZE
  }

  function Outgoing(st: State): Message {
    if DATA <= |st.h.cbuf| then Cut(st.h.cbuf, Word(st.h.cbuf, 4)) else []
  }

  function Incoming(st: State): Message {
    Cut(st.h.cbuf, st.h.csize)
  }

  // ---- client ----

  /** The end of the critical section: reading the response. */
  function Collect(st: State): State {
    if !CanRead(st.ring) then st.(k := st.k.(c := CExit))
    else st.(k := st.k.(c := CCheck, respAvail := false), ring := st.ring[1..],
             h := st.h.(cbuf := Laid(st.h.cbuf, st.ring[0]), csize := |st.ring[0]|))
  }

  /** Its beginning: writing the request, raising message_available and signalling. */
  function Post(st: State): State {
    st.(k := st.k.(msgAvail := true, s := if st.k.s.SWait? then SWoken else st.k.s),
        ring := st.ring + [Outgoing(st)], x := st.x.(turn := true, sent := st.x.sent + [Outgoing(st)]))
  }

  function Submit(st: State): State {
    if !CanWrite(st, Outgoing(st)) then st.(k := st.k.(c := CExit))
    else if !st.k.ready then Post(st).(k := Post(st).k.(c := CExit))
    else if st.k.respAvail then Collect(Post(st))
    else Post(st).(k := Post(st).k.(c := CWait))
  }

  function Count(st: State): State {
    st.(k := st.k.(c := CTop), x := st.x.(got := st.x.got + [Incoming(st)]),
        stats := Stats(st.stats.ops + 1, st.stats.bytes + st.h.csize,
                       if st.stats.latencies < MAX_LATENCIES then st.stats.latencies + 1 else st.stats.latencies))
  }

  ghost predicate CNext(st: State, st': State) {
    match st.k.c
    case CTop =>
      || st' == st.(k := st.k.(c := CExit))
      || (NewRequest(st.h.cbuf, st'.h.cbuf) && st' == st.(k := st.k.(c := CLock), h := st.h.(cbuf := st'.h.cbuf)))
    case CLock => st' == Submit(st)
    case CWoken => st' == if st.k.respAvail then Collect(st) else st.(k := st.k.(c := CWait))
    case CCheck => st' == if Checks(Incoming(st)) then Count(st) else st.(k := st.k.(c := CExit))
    case _ => false
  }

  // ---- server ----

  function Take(st: State): State {
    if !st.k.msgAvail then st.(k := st.k.(s := SWait))
    else if !CanRead(st.ring) then st.(k := st.k.(s := STop))
    else st.(k := st.k.(s := SCheck, msgAvail := false), ring := st.ring[1..], h := st.h.(sbuf := st.ring[0]))
  }

  /** Raising response_available and waking the client. */
  function Release(k: Control): Control {
    k.(respAvail := true, c := if k.c.CWait? then CWoken else k.c)
  }

  function Reply(st: State): State {
    if !CanWrite(st, st.h.sbuf) then st.(k := st.k.(s := STop))
    else st.(k := Release(st.k).(s := STop), ring := st.ring + [st.h.sbuf],
             x := st.x.(turn := false, served := st.x.served + 1))
  }

  /** free_shm_blocking_server. */
  function Finish(st: State): State {
    st.(k := Release(st.k).(s := SDone, ready := false),
        x := st.x.(turn := false, bogus := st.x.bogus + (if st.x.turn then 1 else 0)))
  }

  ghost predicate SNext(st: State, st': State) {
    match st.k.s
    case STop => st' == st.(k := st.k.(s := SFin)) || st' == st.(k := st.k.(s := SLock))
    case SLock => st' == Take(st)
    case SWoken => st' == Take(st)
    case SCheck => st' == if Checks(st.h.sbuf) then st.(k := st.k.(s := SReply)) else st.(k := st.k.(s := STop))
    case SReply => st' == Reply(st)
    case SFin => st' == Finish(st)
    case _ => false
  }

  ghost predicate Spurious(st: State, st': State) {
    var x := st.x.(spurious := st.x.spurious + 1);
    || (st.k.c.CWait? && st' == st.(k := st.k.(c := CWoken), x := x))
    || (st.k.s.SWait? && st' == st.(k := st.k.(s := SWoken), x := x))
  }

  ghost predicate Next(st: State, st': State) {
    CNext(st, st') || SNext(st, st') || Spurious(st, st')
  }

  // ---- the invariant ----

  predicate Waiting(c: Client) {
    c.CWait? || c.CWoken?
  }

  predicate Settled(c: Client) {
    c.CTop? || c.CLock?
  }

  predicate Serving(s: Server) {
    s.SCheck? || s.SReply?
  }

  function Current(st: State): Message {
    if st.x.sent == [] then [] else st.x.sent[|st.x.sent| - 1]
  }

  /** Flags and turn. */
  ghost predicate Flags(k: Control, turn: bool) {
    && (k.ready <==> !k.s.SDone?)
    && (k.c.CWait? ==> !k.respAvail) && (k.s.SWait? ==> !k.msgAvail)
    && (Serving(k.s) ==> turn)
    && (if k.s.SDone? then Waiting(k.c) ==> k.respAvail && !turn
        else (turn ==> Waiting(k.c)) && (k.msgAvail <==> turn && !Serving(k.s))
             && (k.respAvail <==> !turn && Waiting(k.c)))
  }

  /** Where the request in flight is. */
  ghost predicate Flight(st: State) {
    var c, m := st.k.c, Current(st);
    && (Settled(c) || c.CCheck? ==> st.ring == [])
    && (Waiting(c) ==> st.ring == if Serving(st.k.s) then [] else [m])
    && (c.CExit? ==> st.ring == [] || st.ring == [m])
    && (Serving(st.k.s) ==> st.h.sbuf == m)
    && (c.CCheck? ==> Incoming(st) == m && st.h.csize == |m|)
  }

  ghost predicate Buffers(st: State) {
    && Fits(st.size, 0, LONGEST) && |st.h.cbuf| == MAX_MSG_SIZE
    && |Current(st)| <= LONGEST && (st.k.c.CLock? ==> |Outgoing(st)| <= LONGEST)
  }

  /** Requests are numbered from one, and so is the buffer they are built in. */
  ghost predicate Numbers(st: State) {
    && |st.h.cbuf| == MAX_MSG_SIZE
    && (forall i :: 0 <= i < |st.x.sent| ==> Numbered(st.x.sent[i], i + 1))
    && (if st.k.c.CLock? then Numbered(Outgoing(st), |st.x.sent| + 1) else Word(st.h.cbuf, 8) == U32(|st.x.sent|))
  }

  ghost predicate Validated(st: State) {
    && (forall m :: m in st.x.sent ==> Checks(m))
    && (st.k.c.CLock? ==> Checks(Outgoing(st)))
    && (st.k.c.CCheck? || Waiting(st.k.c) ==> st.x.sent != [])
  }

  ghost predicate Logs(st: State) {
    var x, c := st.x, st.k.c;
    && (if Settled(c) then x.got == x.sent
        else if c.CExit? then x.got == x.sent || (x.sent != [] && x.got == x.sent[..|x.sent| - 1])
        else x.sent != [] && x.got == x.sent[..|x.sent| - 1])
    && |x.got| == st.stats.ops && st.stats.bytes == Total(x.got)
    && st.stats.latencies == (if st.stats.ops < MAX_LATENCIES then st.stats.ops else MAX_LATENCIES)
  }

  ghost predicate Served(st: State) {
    && st.x.served + st.x.bogus == st.stats.ops + (if st.k.c.CCheck? || (Waiting(st.k.c) && !st.x.turn) then 1 else 0)
    && st.x.bogus <= (if st.k.s.SDone? then 1 else 0)
  }

  ghost predicate Inv(st: State) {
    && Flags(st.k, st.x.turn) && Flight(st) && Buffers(st) && Numbers(st) && Validated(st) && Logs(st) && Served(st)
  }

  lemma InitHolds(st: State)
    requires Init(st)
    ensures Inv(st)
  {
  }

  // ---- every ring operation and every validation succeeds ----

  lemma CurrentChecks(st: State)
    requires Validated(st) && st.x.sent != []
    ensures Checks(Current(st))
  {
    assert Current(st) in st.x.sent;
  }

  /** What the client's step is, given the invariant. */
  ghost predicate CSteps(st: State, st': State) {
    match st.k.c
    case CTop =>
      || st' == st.(k := st.k.(c := CExit))
      || st' == st.(k := st.k.(c := CLock), h := st.h.(cbuf := st'.h.cbuf))
    case CLock => st' == Post(st).(k := Post(st).k.(c := if st.k.ready then CWait else CExit))
    case CWoken =>
      if st.k.respAvail
      then CanRead(st.ring) && st' == Collect(st)
      else st' == st.(k := st.k.(c := CWait))
    case CCheck => st' == Count(st)
    case _ => false
  }

  lemma ClientSucceeds(st: State, st': State)
    requires Inv(st) && CNext(st, st')
    ensures CSteps(st, st') && (st'.k.c.CLock? ==> HoldsRequest(st'.h.cbuf, |st.x.sent| + 1))
  {
    assert EncodeAll([]) == [];
    if st.k.c.CCheck? { CurrentChecks(st); }
    if st.k.c.CTop? && st'.k.c.CLock? { FreshRequest(st.h.cbuf, st'.h.cbuf, |st.x.sent|); }
  }

  ghost predicate SSteps(st: State, st': State) {
    match st.k.s
    case STop => st' == st.(k := st.k.(s := SFin)) || st' == st.(k := st.k.(s := SLock))
    case SLock => st' == Take(st) && (st.k.msgAvail ==> CanRead(st.ring))
    case SWoken => st' == Take(st) && (st.k.msgAvail ==> CanRead(st.ring))
    case SCheck => st' == st.(k := st.k.(s := SReply))
    case SReply =>
      st' == st.(k := Release(st.k).(s := STop), ring := st.ring + [st.h.sbuf],
                 x := st.x.(turn := false, served := st.x.served + 1))
    case SFin => st' == Finish(st)
    case _ => false
  }

  lemma ServerSucceeds(st: State, st': State)
    requires Inv(st) && SNext(st, st')
    ensures SSteps(st, st')
  {
    assert EncodeAll([]) == [];
    if st.k.s.SCheck? { CurrentChecks(st); }
  }

  // ---- preservation ----

  lemma ClientFlags(st: State, st': State)
    requires Flags(st.k, st.x.turn) && CSteps(st, st')
    ensures Flags(st'.k, st'.x.turn)
  {
  }

  lemma CollectFlight(st: State, st': State)
    requires Flags(st.k, st.x.turn) && Flight(st) && Waiting(st.k.c) && st.k.respAvail
    requires CanRead(st.ring) && st' == Collect(st)
    ensures Flight(st')
  {
    assert st.ring == [Current(st)];
    assert Incoming(st') == Current(st);
  }

  lemma ClientFlight(st: State, st': State)
    requires Flags(st.k, st.x.turn) && Flight(st) && Buffers(st) && CSteps(st, st')
    ensures Flight(st')
  {
    if st.k.c.CWoken? && st.k.respAvail { CollectFlight(st, st'); }
  }

  lemma ServerKeeps(st: State, st': State)
    requires Flags(st.k, st.x.turn) && Flight(st) && (SSteps(st, st') || Spurious(st, st'))
    ensures Flags(st'.k, st'.x.turn) && Flight(st')
  {
  }

  lemma ClientBuffers(st: State, st': State)
    requires Flight(st) && Buffers(st) && CSteps(st, st')
    requires st'.k.c.CLock? ==> HoldsRequest(st'.h.cbuf, |st.x.sent| + 1)
    ensures Buffers(st')
  {
    match st.k.c {
      case CTop =>
      case CLock => assert Current(st') == Outgoing(st);
      case CWoken =>
      case CCheck =>
      case _ =>
    }
  }

  /** A received request puts its number back into the client's buffer. */
  lemma CollectNumbers(st: State, st': State)
    requires Flags(st.k, st.x.turn) && Flight(st) && Numbers(st) && Validated(st) && CSteps(st, st')
    requires st.k.c.CWoken? && st.k.respAvail
    ensures Numbers(st')
  {
    assert Numbered(Current(st), |st.x.sent|);
    assert Word(st'.h.cbuf, 8) == Word(st.ring[0], 8);
  }

  lemma ClientNumbers(st: State, st': State)
    requires Flags(st.k, st.x.turn) && Flight(st) && Numbers(st) && Validated(st) && CSteps(st, st')
    requires st'.k.c.CLock? ==> HoldsRequest(st'.h.cbuf, |st.x.sent| + 1)
    ensures Numbers(st')
  {
    match st.k.c {
      case CTop =>
      case CLock => assert Word(st.h.cbuf, 8) == Word(Outgoing(st), 8);
      case CWoken => if st.k.respAvail { CollectNumbers(st, st'); }
      case CCheck =>
      case _ =>
    }
  }

  lemma ClientValidated(st: State, st': State)
    requires Numbers(st) && Validated(st) && CSteps(st, st')
    requires st'.k.c.CLock? ==> HoldsRequest(st'.h.cbuf, |st.x.sent| + 1)
    ensures Validated(st')
  {
  }

  lemma CountLogs(st: State, st': State)
    requires Flight(st) && Logs(st) && st.k.c.CCheck? && st' == Count(st)
    ensures Logs(st')
  {
    assert st'.x.got == st.x.sent;
    TotalAppend(st.x.got, Incoming(st));
  }

  lemma PostLogs(st: State, st': State)
    requires Logs(st) && Settled(st.k.c) && !Settled(st'.k.c) && !st'.k.c.CTop?
    requires st'.stats == st.stats && st'.x.got == st.x.got && st'.x.sent == st.x.sent + [Outgoing(st)]
    ensures Logs(st')
  {
    assert st'.x.sent[..|st.x.sent|] == st.x.sent;
  }

  lemma ClientLogs(st: State, st': State)
    requires Flight(st) && Logs(st) && CSteps(st, st')
    ensures Logs(st')
  {
    match st.k.c {
      case CTop =>
      case CLock => PostLogs(st, st');
      case CWoken => assert st'.x == st.x && st'.stats == st.stats;
      case CCheck => CountLogs(st, st');
      case _ =>
    }
  }

  lemma ClientServed(st: State, st': State)
    requires Flags(st.k, st.x.turn) && Served(st) && CSteps(st, st')
    ensures Served(st')
  {
  }

  /** The server touches neither the client's buffer nor what is logged. */
  lemma ServerQuiet(st: State, st': State)
    requires SSteps(st, st') || Spurious(st, st')
    ensures st'.size == st.size && st'.h.cbuf == st.h.cbuf && st'.stats == st.stats
    ensures st'.x.sent == st.x.sent && st'.x.got == st.x.got
    ensures st'.k.c == st.k.c || (Waiting(st.k.c) && Waiting(st'.k.c))
  {
  }

  lemma ServerKeepsData(st: State, st': State)
    requires Buffers(st) && Numbers(st) && Validated(st) && Logs(st) && (SSteps(st, st') || Spurious(st, st'))
    ensures Buffers(st') && Numbers(st') && Validated(st') && Logs(st')
  {
    ServerQuiet(st, st');
  }

  lemma ServerServes(st: State, st': State)
    requires Flags(st.k, st.x.turn) && Served(st) && (SSteps(st, st') || Spurious(st, st'))
    ensures Served(st')
  {
  }

  lemma Keeps(st: State, st': State)
    requires Inv(st) && Next(st, st')
    ensures Inv(st')
  {
    if CNext(st, st') {
      ClientSucceeds(st, st');
      ClientFlags(st, st');
      ClientFlight(st, st');
      ClientBuffers(st, st');
      ClientNumbers(st, st');
      ClientValidated(st, st');
      ClientLogs(st, st');
      ClientServed(st, st');
    } else {
      if SNext(st, st') { ServerSucceeds(st, st'); }
      ServerKeeps(st, st');
      ServerKeepsData(st, st');
      ServerServes(st, st');
    }
  }

  // ---- progress ----

  function CRank(c: Client): nat {
    match c
    case CTop => 46
    case CLock => 45
    case CWoken => 11
    case CWait => 10
    case CCheck => 3
    case CExit => 0
  }

  function SRank(s: Server, turn: bool): nat {
    match s
    case STop => if turn then 30 else 8
    case SLock => if turn then 28 else 6
    case SWoken => if turn then 25 else 5
    case SWait => 4
    case SCheck => 20
    case SReply => 19
    case SFin => 3
    case SDone => 0
  }

  function Rank(st: State): (r: nat)
    ensures r <= 76
  {
    CRank(st.k.c) + SRank(st.k.s, st.x.turn)
  }

  lemma ClientAdvances(st: State, st': State)
    requires Flags(st.k, st.x.turn) && CSteps(st, st')
    ensures st'.x.spurious == st.x.spurious
    ensures if st'.stats.ops == st.stats.ops then Rank(st') < Rank(st) else st'.stats.ops == st.stats.ops + 1
  {
  }

  lemma ServerAdvances(st: State, st': State)
    requires Flags(st.k, st.x.turn) && SSteps(st, st')
    ensures st'.x.spurious == st.x.spurious && st'.stats.ops == st.stats.ops && Rank(st') < Rank(st)
  {
  }

  /** A step costs a unit of rank, unless it counts an operation or is a spurious wakeup. */
  lemma StepCost(st: State, st': State)
    requires Inv(st) && Next(st, st')
    ensures 1 + Rank(st') + 77 * st.stats.ops + 2 * st.x.spurious <= Rank(st) + 77 * st'.stats.ops + 2 * st'.x.spurious
  {
    if CNext(st, st') {
      ClientSucceeds(st, st');
      ClientAdvances(st, st');
    } else if SNext(st, st') {
      ServerSucceeds(st, st');
      ServerAdvances(st, st');
    }
  }

  // ---- runs ----

  ghost predicate StepAt(run: seq<State>, i: int)
    requires 0 <= i < |run| - 1
  {
    Next(run[i], run[i + 1])
  }

  ghost predicate IsRun(run: seq<State>) {
    && |run| > 0 && Init(run[0])
    && forall i {:trigger StepAt(run, i)} :: 0 <= i < |run| - 1 ==> StepAt(run, i)
  }

  /** What holds of every state of a run, n steps from its start. */
  ghost predicate Reached(st: State, n: nat) {
    Inv(st) && n + Rank(st) <= 76 + 77 * st.stats.ops + 2 * st.x.spurious
  }

  lemma StartReached(run: seq<State>)
    requires IsRun(run)
    ensures Reached(run[0], 0)
  {
    InitHolds(run[0]);
  }

  lemma StepReaches(run: seq<State>, i: nat)
    requires IsRun(run) && i < |run| - 1 && Reached(run[i], i)
    ensures Reached(run[i + 1], i + 1)
  {
    assert StepAt(run, i);
    Keeps(run[i], run[i + 1]);
    StepCost(run[i], run[i + 1]);
  }

  lemma {:induction false} ReachedAt(run: seq<State>, i: nat)
    requires IsRun(run) && i < |run|
    ensures Reached(run[i], i)
  {
    if i == 0 {
      StartReached(run);
    } else {
      ReachedAt(run, i - 1);
      StepReaches(run, i - 1);
    }
  }

  lemma RunKeeps(run: seq<State>)
    requires IsRun(run)
    ensures Reached(run[|run| - 1], |run| - 1)
  {
    ReachedAt(run, |run| - 1);
  }

  /** Every front of a run is a run, followed by a step. */
  lemma FrontIsRun(run: seq<State>, n: nat)
    requires IsRun(run) && 0 < n < |run|
    ensures IsRun(run[..n]) && StepAt(run, n - 1)
  {
    forall i | 0 <= i < n - 1 ensures StepAt(run[..n], i) {
      assert StepAt(run, i);
    }
  }

  /** A run and one more step. */
  lemma Extend(run: seq<State>, st: State) returns (longer: seq<State>)
    requires IsRun(run) && Next(run[|run| - 1], st)
    ensures IsRun(longer) && longer == run + [st]
  {
    longer := run + [st];
    forall i | 0 <= i < |run| ensures StepAt(longer, i) {
      if i < |run| - 1 {
        assert StepAt(run, i);
      }
    }
  }

  /** No process has a step left, but for spurious wakeups. */
  predicate Stuck(k: Control) {
    (k.c.CWait? || k.c.CExit?) && (k.s.SWait? || k.s.SDone?)
  }

  /** The k-th counted response is the k-th request, byte for byte, numbered k and valid; the statistics
      are those of the responses; no more operations are counted than the server answered, but for one
      that its shutdown may add. */
  lemma EndToEnd(run: seq<State>)
    requires IsRun(run)
    ensures var st := run[|run| - 1];
            var n, x := st.stats.ops, st.x;
            && |x.got| == n <= |x.sent| <= n + 1 && x.got == x.sent[..n]
            && (forall i :: 0 <= i < n ==> Numbered(x.got[i], i + 1) && Checks(x.got[i]))
            && st.stats.bytes == Total(x.got)
            && st.stats.latencies == (if n < MAX_LATENCIES then n else MAX_LATENCIES)
            && n <= x.served + (if st.k.s.SDone? then 1 else 0)
  {
    RunKeeps(run);
    var x := run[|run| - 1].x;
    assert x.got <= x.sent;
    forall i | 0 <= i < |x.got| ensures Numbered(x.got[i], i + 1) && Checks(x.got[i]) {
      assert x.got[i] == x.sent[i] && x.sent[i] in x.sent;
    }
  }

  /** No ring operation and no validation of either loop ever fails, the ring holds at most one message,
      and a run can only stop once the client has left its loop; it always does so within a bounded
      number of steps for each operation and spurious wakeup. */
  lemma NeverStuck(run: seq<State>)
    requires IsRun(run)
    ensures var st := run[|run| - 1];
            && |st.ring| <= 1
            && (st.k.c.CLock? ==> CanWrite(st, Outgoing(st)))
            && (st.k.c.CWoken? && st.k.respAvail ==> CanRead(st.ring))
            && (st.k.c.CCheck? ==> Checks(Incoming(st)))
            && (!st.k.s.SDone? && !st.k.s.SWait? && st.k.msgAvail && !Serving(st.k.s) ==> CanRead(st.ring))
            && (st.k.s.SCheck? ==> Checks(st.h.sbuf))
            && (st.k.s.SReply? ==> CanWrite(st, st.h.sbuf))
            && (Stuck(st.k) ==> st.k.c.CExit?)
            && |run| <= 77 * (st.stats.ops + 1) + 2 * st.x.spurious
  {
    RunKeeps(run);
    var st := run[|run| - 1];
    assert EncodeAll([]) == [];
    if st.k.c.CCheck? || st.k.s.SCheck? { CurrentChecks(st); }
  }
}
