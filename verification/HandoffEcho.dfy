/** The three-party echo with its data (shm_nonblocking.c:217-427): one message buffer that main thread and
    client thread hand to each other, the ring, the server's buffer, and what the main thread counts. */
module HandoffEcho {
  import opened Bytes
  import opened Config
  import opened Frames
  import opened RingLayout
  import opened Messages
  import opened Interrupts
  import H = Handoff

  datatype Data = Data(ring: seq<Message>, buf: seq<byte>, msgSize: nat, sbuf: Message)

  datatype Stats = Stats(bytes: nat, latencies: nat)

  /** Auxiliary: the buffer as malloc left it, the requests written and the responses counted. */
  datatype Log = Log(first: seq<byte>, sent: seq<Message>, got: seq<Message>)

  datatype State = State(k: H.State, size: nat, d: Data, stats: Stats, l: Log)

  /** Nothing sets the fresh buffer; a size field in it that leads out of it is not modelled. */
  ghost predicate Init(st: State) {
    && H.Init(st.k) && Fits(st.size, 0, LONGEST) && st.d.ring == [] && st.d.buf == st.l.first
    && |st.l.first| == MAX_MSG_SIZE && Word(st.l.first, 4) <= MAX_MSG_SIZE
    && st.stats == Stats(0, 0) && st.l.sent == st.l.got == []
  }

  predicate CanWrite(st: State, m: Message) {
    Fits(st.size, |EncodeAll(st.d.ring)|, |m|)
  }

  predicate CanRead(ring: seq<Message>) {
    ring != [] && |ring[0]| <= MAX_MSG_SIZE
  }

  /** What the thread passes to ring_buffer_write: as many bytes of the buffer as it says it has. */
  function Outgoing(buf: seq<byte>): Message {
    if DATA <= |buf| then Cut(buf, Word(buf, 4)) else []
  }

  // ---- main thread ----

  function Count(st: State): State {
    var m := Cut(st.d.buf, st.d.msgSize);
    var n := st.stats.latencies;
    st.(stats := Stats(st.stats.bytes + st.d.msgSize, if n < MAX_LATENCIES then n + 1 else n),
        l := st.l.(got := st.l.got + [m]))
  }

  ghost predicate MNext(st: State, st': State, kind: Kind) {
    && H.MNext(st.k, st'.k, kind)
    && match st.k.m
       case MTop =>
         if st'.k.m.MExit? then st' == st.(k := st'.k)
         else NewRequest(st.d.buf, st'.d.buf) && st' == st.(k := st'.k, d := st.d.(buf := st'.d.buf))
       case MCheck => st' == if st.k.h.readSuccess then Count(st).(k := st'.k) else st.(k := st'.k)
       case _ => st' == st.(k := st'.k)
  }

  // ---- client thread ----

  function Collect(d: Data): Data {
    if CanRead(d.ring) then d.(ring := d.ring[1..], buf := Laid(d.buf, d.ring[0]), msgSize := |d.ring[0]|)
    else d.(msgSize := 0)
  }

  /** The results of the operations in the thread's next critical section. */
  predicate Wrote(st: State) {
    CanWrite(st, Outgoing(st.d.buf))
  }

  predicate Got(st: State) {
    CanRead(if st.k.t.TLock? then st.d.ring + [Outgoing(st.d.buf)] else st.d.ring)
  }

  function Submitted(st: State): State {
    var m := Outgoing(st.d.buf);
    var d := st.d.(ring := st.d.ring + [m]);
    st.(l := st.l.(sent := st.l.sent + [m]),
        d := if !st.k.r.ready then d.(msgSize := 0) else if st.k.r.respAvail then Collect(d) else d)
  }

  function TData(st: State): State {
    if st.k.t.TLock? && Wrote(st) then Submitted(st)
    else if st.k.t.TWoken? && st.k.r.respAvail then st.(d := Collect(st.d))
    else st
  }

  ghost predicate TNext(st: State, st': State, kind: Kind) {
    H.TReady(st.k) && st' == TData(st).(k := H.TStep(st.k, kind, Wrote(st), Got(st)))
  }

  // ---- server ----

  ghost predicate Ok(st: State) {
    if st.k.s.SWork? then Checks(st.d.sbuf) else CanWrite(st, st.d.sbuf)
  }

  predicate Reads(k: H.State) {
    (k.s.SLock? || k.s.SWoken?) && k.r.msgAvail
  }

  ghost function SData(st: State): State {
    if Reads(st.k) && CanRead(st.d.ring) then st.(d := st.d.(ring := st.d.ring[1..], sbuf := st.d.ring[0]))
    else if st.k.s.SReply? && Ok(st) then st.(d := st.d.(ring := st.d.ring + [st.d.sbuf]))
    else st
  }

  ghost predicate SNext(st: State, st': State) {
    && H.SReady(st.k)
    && if st.k.s.STop? then st' == st.(k := st.k.(s := H.SFin)) || st' == st.(k := st.k.(s := H.SLock))
       else st' == SData(st).(k := H.SStep(st.k, Ok(st), CanRead(st.d.ring)))
  }

  ghost predicate Spurious(st: State, st': State) {
    H.Spurious(st.k, st'.k) && st' == st.(k := st'.k)
  }

  ghost predicate Next(st: State, st': State, kind: Kind) {
    MNext(st, st', kind) || TNext(st, st', kind) || SNext(st, st') || Spurious(st, st')
  }

  // ---- the invariant on the data ----

  /** The request in flight. */
  function Last(sent: seq<Message>): Message {
    if sent == [] then [] else sent[|sent| - 1]
  }

  function Current(st: State): Message {
    Last(st.l.sent)
  }

  /** A request has been built that the thread has not yet written. */
  predicate Building(k: H.State) {
    H.InLoop(k.m) && (k.m.MSignal? || k.h.writeIntr == 1 || k.t.TLock?)
  }

  /** Where the request in flight is. */
  ghost predicate Flight(st: State) {
    var t, s, m := st.k.t, st.k.s, Current(st);
    && |st.d.ring| == st.k.r.ring && (forall i :: 0 <= i < |st.d.ring| ==> st.d.ring[i] == m)
    && |m| <= MAX_MSG_SIZE
    && (H.TWaiting(t) ==> st.l.sent != [] && Fits(st.size, 0, |m|))
    && (H.Serving(s) ==> st.d.sbuf == m)
  }

  /** The one message buffer: as it was at first, or starting with the last request, or with the next. */
  ghost predicate BufferHolds(buf: seq<byte>, l: Log, building: bool) {
    && |buf| == |l.first| == MAX_MSG_SIZE
    && if building then HoldsRequest(buf, Word(l.first, 8) + |l.sent| + 1)
       else if l.sent == [] then buf == l.first
       else Outgoing(buf) == Last(l.sent) && Cut(buf, |Last(l.sent)|) == Last(l.sent)
  }

  ghost predicate Buffer(st: State) {
    Fits(st.size, 0, LONGEST) && BufferHolds(st.d.buf, st.l, Building(st.k))
  }

  /** The requests the main thread built are valid and numbered on from the fresh buffer; one more, written
      after should_exit, repeats the last of them, or is whatever the fresh buffer holds. */
  ghost predicate Requests(l: Log, late: nat) {
    var n := |l.sent| - late;
    && 0 <= n && |l.first| == MAX_MSG_SIZE
    && (forall i :: 0 <= i < n ==> Numbered(l.sent[i], Word(l.first, 8) + i + 1) && Checks(l.sent[i]))
    && (n < |l.sent| ==> Last(l.sent) == if n == 0 then Outgoing(l.first) else l.sent[n - 1])
  }

  /** Nothing but what the fresh buffer holds is ever found invalid. */
  ghost predicate Sent(st: State) {
    && Requests(st.l, st.k.x.late)
    && (st.k.x.dropped ==> |st.l.sent| == st.k.x.late == 1 && !Checks(Outgoing(st.l.first)))
  }

  /** What was counted. */
  ghost predicate Counted(st: State) {
    var k, n := st.k, |st.l.sent|;
    && |st.l.got| == k.ops <= n && st.l.got == st.l.sent[..k.ops]
    && st.stats.bytes == Total(st.l.got)
    && st.stats.latencies == (if k.ops < MAX_LATENCIES then k.ops else MAX_LATENCIES)
    && (if H.InLoop(k.m) then n == k.ops + (if k.m.MTop? || Building(k) then 0 else 1) else k.ops + k.x.late <= n)
    && (H.InLoop(k.m) && H.Uncounted(k) == 1 ==> st.d.msgSize == |Current(st)|)
  }

  ghost predicate DataInv(st: State) {
    Flight(st) && Buffer(st) && Sent(st) && Counted(st)
  }

  ghost predicate Inv(st: State) {
    H.Inv(st.k) && DataInv(st)
  }

  lemma InitData(st: State)
    requires Init(st)
    ensures DataInv(st)
  {
    assert !Building(st.k) && st.l.sent == [];
  }

  lemma InitHolds(st: State)
    requires Init(st)
    ensures Inv(st) && H.Rank(st.k) <= 182
  {
    InitData(st);
    H.InitHolds(st.k);
  }

  // ---- the skeleton's conditions hold ----

  lemma CurrentChecks(st: State)
    requires Sent(st) && st.l.sent != [] && (st.k.x.late == 0 || (st.k.x.late == 1 && |st.l.sent| > 1))
    ensures Checks(Current(st))
  {
    var n := |st.l.sent| - st.k.x.late;
    assert Checks(st.l.sent[n - 1]);
  }

  lemma ThreadMay(st: State)
    requires H.Token(st.k) && Flight(st) && Buffer(st)
    ensures H.TMay(st.k, Wrote(st), Got(st))
  {
    assert EncodeAll([]) == [];
    assert st.d.ring != [] ==> st.d.ring[0] == Current(st);
  }

  lemma ServerMay(st: State)
    requires H.Exchange(st.k) && Flight(st) && Sent(st)
    ensures H.SMay(st.k, Ok(st), CanRead(st.d.ring))
  {
    assert EncodeAll([]) == [];
    if st.k.s.SWork? && st.k.x.late == 0 { CurrentChecks(st); }
  }

  lemma ControlFollows(st: State, st': State, kind: Kind)
    requires Inv(st) && Next(st, st', kind)
    ensures H.Next(st.k, st'.k, kind)
  {
    if TNext(st, st', kind) {
      ThreadMay(st);
    } else if SNext(st, st') {
      ServerMay(st);
    }
  }

  // ---- preservation ----

  /** The main thread's step, but for where the new request comes from. */
  ghost predicate MSteps(st: State, st': State) {
    match st.k.m
    case MTop => st' == st.(k := st'.k) || (st'.k.m.MSignal? && st' == st.(k := st'.k, d := st.d.(buf := st'.d.buf)))
    case MCheck => st' == if st.k.h.readSuccess then Count(st).(k := st'.k) else st.(k := st'.k)
    case _ => st' == st.(k := st'.k)
  }

  /** The fresh buffer, or the last request in it, has the number before the next request's. */
  lemma BufferNumber(st: State)
    requires Buffer(st) && Sent(st) && st.k.x.late == 0 && !Building(st.k)
    ensures Word(st.d.buf, 8) == U32(Word(st.l.first, 8) + |st.l.sent|)
  {
    var n := |st.l.sent|;
    if n > 0 {
      assert Numbered(st.l.sent[n - 1], Word(st.l.first, 8) + n);
      assert Word(st.d.buf, 8) == Word(Cut(st.d.buf, |Current(st)|), 8);
    }
  }

  lemma MainSteps(st: State, st': State, kind: Kind)
    requires MNext(st, st', kind)
    ensures H.MNext(st.k, st'.k, kind) && MSteps(st, st')
  {
  }

  lemma MainFresh(st: State, st': State, kind: Kind, n: nat)
    requires MNext(st, st', kind) && st.k.m.MTop? && st'.k.m.MSignal?
    requires |st.d.buf| == MAX_MSG_SIZE && Word(st.d.buf, 8) == U32(n)
    ensures HoldsRequest(st'.d.buf, n + 1)
  {
    FreshRequest(st.d.buf, st'.d.buf, n);
  }

  /** What the data invariant sees of the main thread's control step. */
  ghost predicate MShows(k: H.State, k': H.State) {
    && k'.t == k.t && k'.s == k.s && k'.r == k.r && k'.x == k.x
    && (k.m.MTop? ==> !Building(k)) && (Building(k') <==> Building(k) || (k.m.MTop? && k'.m.MSignal?))
    && (k.m.MTop? && H.InLoop(k'.m) ==> k'.m.MSignal?)
    && if k.m.MCheck? && k.h.readSuccess
       then H.InLoop(k.m) && H.Uncounted(k) == 1 && k'.m.MTop? && k'.ops == k.ops + 1 && !Building(k)
       else
         && k'.ops == k.ops && (H.InLoop(k.m) ==> k.x.late == 0) && (H.InLoop(k'.m) ==> H.InLoop(k.m) && !k'.m.MTop?)
         && (H.InLoop(k'.m) && H.Uncounted(k') == 1 ==> H.Uncounted(k) == 1)
  }

  lemma MainShows(k: H.State, k': H.State, kind: Kind)
    requires H.Inv(k) && H.MNext(k, k', kind)
    ensures MShows(k, k')
  {
  }

  lemma MainFlight(st: State, st': State)
    requires MShows(st.k, st'.k) && MSteps(st, st') && Flight(st)
    ensures Flight(st')
  {
  }

  lemma MainKeeps(st: State, st': State)
    requires MShows(st.k, st'.k) && MSteps(st, st') && Buffer(st) && Sent(st)
    requires st.k.m.MTop? && st'.k.m.MSignal? ==>
               HoldsRequest(st'.d.buf, Word(st.l.first, 8) + |st.l.sent| + 1)
    ensures Buffer(st') && Sent(st')
  {
  }

  lemma CountCounted(st: State, st': State)
    requires MShows(st.k, st'.k) && st' == Count(st).(k := st'.k) && st.k.m.MCheck? && st.k.h.readSuccess
    requires Buffer(st) && Counted(st)
    ensures Counted(st')
  {
    TotalAppend(st.l.got, Cut(st.d.buf, st.d.msgSize));
    assert st'.l.got == st.l.sent;
  }

  lemma MainCounted(st: State, st': State)
    requires MShows(st.k, st'.k) && MSteps(st, st') && !(st.k.m.MCheck? && st.k.h.readSuccess)
    requires Counted(st)
    ensures Counted(st')
  {
  }

  /** The thread's step, given the invariant: it writes to an empty ring, and reads back what it wrote. */
  ghost predicate TSteps(st: State, st': State) {
    var k, k', m := st.k, st'.k, Outgoing(st.d.buf);
    match k.t
    case TLock =>
      if Wrote(st)
      then st.d.ring == [] && st' == st.(k := k', l := st.l.(sent := st.l.sent + [m]),
                                         d := st.d.(ring := [m], msgSize := if k.r.ready then st.d.msgSize else 0))
      else k.h.shouldExit && st' == st.(k := k')
    case TWoken =>
      if !k.r.respAvail then st' == st.(k := k')
      else if k.x.dropped then st' == st.(k := k', d := st.d.(msgSize := 0))
      else st.d.ring == [Current(st)] && st' == st.(k := k', d := st.d.(ring := [], msgSize := |Current(st)|))
    case _ => st' == st.(k := k')
  }

  /** What the data invariant sees of the thread's control step. */
  ghost predicate TShows(k: H.State, k': H.State, wrote: bool) {
    && k'.m == k.m && k'.ops == k.ops && H.Serving(k'.s) == H.Serving(k.s) && k'.x.dropped == k.x.dropped
    && (Building(k') <==> Building(k) && !k.t.TLock?)
    && (H.InLoop(k.m) ==> k.x.late == k'.x.late == 0 && !k.x.dropped)
    && (H.InLoop(k.m) ==> (k.t.TLock? ==> Building(k)) && (Building(k) ==> !k.m.MTop?))
    && (H.InLoop(k.m) && H.Uncounted(k') == 1 ==>
          (H.Uncounted(k) == 1 && !k.t.TLock?) || (k.t.TWoken? && !k.x.dropped && k.r.respAvail))
    && (k.t.TLock? ==> k.x.late == 0 && H.InLoop(k.m) == !k.h.shouldExit && !k.x.dropped && !H.Serving(k.s))
    && (if k.t.TLock? && wrote then k'.r.ring == 1 && k'.x.late == (if k.h.shouldExit then 1 else 0)
        else
          && k'.x.late == k.x.late && (H.TWaiting(k'.t) ==> H.TWaiting(k.t))
          && (if k.t.TWoken? && k.r.respAvail then k'.r.ring == 0 && !Building(k) && (k.x.dropped ==> k.r.ring == 0)
             else k'.r.ring == k.r.ring))
  }

  lemma ThreadShows(k: H.State, k': H.State, kind: Kind, wrote: bool, got: bool)
    requires H.Inv(k) && H.TReady(k) && H.TMay(k, wrote, got) && k' == H.TStep(k, kind, wrote, got)
    ensures TShows(k, k', wrote)
  {
  }

  lemma ThreadSteps(st: State, st': State, kind: Kind)
    requires H.Inv(st.k) && Flight(st) && Buffer(st) && TNext(st, st', kind)
    ensures TSteps(st, st') && TShows(st.k, st'.k, Wrote(st))
  {
    ThreadMay(st);
    ThreadShows(st.k, st'.k, kind, Wrote(st), Got(st));
  }

  lemma ThreadFlight(st: State, st': State)
    requires TShows(st.k, st'.k, Wrote(st)) && TSteps(st, st') && Flight(st) && Buffer(st)
    ensures Flight(st')
  {
    assert EncodeAll([]) == [];
  }

  lemma ThreadBuffer(st: State, st': State)
    requires TShows(st.k, st'.k, Wrote(st)) && TSteps(st, st') && Buffer(st)
    ensures Buffer(st')
  {
  }

  lemma ThreadSent(st: State, st': State)
    requires TShows(st.k, st'.k, Wrote(st)) && TSteps(st, st') && Buffer(st) && Sent(st)
    ensures Sent(st')
  {
  }

  lemma ThreadCounted(st: State, st': State)
    requires TShows(st.k, st'.k, Wrote(st)) && TSteps(st, st') && Counted(st)
    ensures Counted(st')
  {
  }

  /** The server's step, given the invariant. */
  ghost predicate SSteps(st: State, st': State) {
    if Reads(st.k)
    then st.d.ring == [Current(st)] && st' == st.(k := st'.k, d := st.d.(ring := [], sbuf := Current(st)))
    else if st.k.s.SReply? then st.d.ring == [] && st' == st.(k := st'.k, d := st.d.(ring := [Current(st)]))
    else st' == st.(k := st'.k)
  }

  /** What the data invariant sees of the server's control step. */
  ghost predicate SShows(k: H.State, k': H.State, ok: bool) {
    && k'.m == k.m && k'.ops == k.ops && k'.h == k.h && k'.x.late == k.x.late
    && H.TWaiting(k'.t) == H.TWaiting(k.t) && k'.t.TLock? == k.t.TLock? && k'.t.TSigR? == k.t.TSigR?
    && (H.Serving(k'.s) ==> H.Serving(k.s) || Reads(k)) && (H.Serving(k.s) ==> H.TWaiting(k.t))
    && (k'.x.dropped ==> k.x.dropped || (k.s.SWork? && !ok))
    && k'.r.ring == if Reads(k) then 0 else if k.s.SReply? then 1 else k.r.ring
  }

  lemma ServerShows(k: H.State, k': H.State, ok: bool, got: bool)
    requires H.Exchange(k) && H.OneMore(k) && H.SReady(k) && H.SMay(k, ok, got)
    requires if k.s.STop? then k' == k.(s := H.SFin) || k' == k.(s := H.SLock) else k' == H.SStep(k, ok, got)
    ensures SShows(k, k', ok)
  {
  }

  lemma ServerSteps(st: State, st': State)
    requires H.Inv(st.k) && Flight(st) && Sent(st) && SNext(st, st')
    ensures SSteps(st, st') && SShows(st.k, st'.k, Ok(st))
  {
    ServerMay(st);
    ServerShows(st.k, st'.k, Ok(st), CanRead(st.d.ring));
  }

  /** Only what the fresh buffer held can be found invalid. */
  lemma DroppedIsFirst(st: State)
    requires H.OneMore(st.k) && Flight(st) && Sent(st) && H.Exchange(st.k) && st.k.s.SWork? && !Ok(st)
    ensures |st.l.sent| == st.k.x.late == 1 && !Checks(Outgoing(st.l.first))
  {
    if st.k.x.late == 0 || |st.l.sent| > 1 { CurrentChecks(st); }
  }

  lemma ServerFlight(st: State, st': State)
    requires SShows(st.k, st'.k, Ok(st)) && SSteps(st, st') && Flight(st)
    ensures Flight(st')
  {
  }

  lemma ServerKeeps(st: State, st': State)
    requires SShows(st.k, st'.k, Ok(st)) && SSteps(st, st')
    requires st.k.s.SWork? && !Ok(st) ==> |st.l.sent| == st.k.x.late == 1 && !Checks(Outgoing(st.l.first))
    requires Buffer(st) && Sent(st) && Counted(st)
    ensures Buffer(st') && Sent(st') && Counted(st')
  {
  }

  lemma SpuriousKeeps(st: State, st': State)
    requires DataInv(st) && Spurious(st, st')
    ensures DataInv(st')
  {
  }

  lemma MainSucceeds(st: State, st': State, kind: Kind)
    requires H.Inv(st.k) && Buffer(st) && Sent(st) && MNext(st, st', kind)
    ensures MShows(st.k, st'.k) && MSteps(st, st')
    ensures st.k.m.MTop? && st'.k.m.MSignal? ==>
              HoldsRequest(st'.d.buf, Word(st.l.first, 8) + |st.l.sent| + 1)
  {
    MainShows(st.k, st'.k, kind);
    MainSteps(st, st', kind);
    if st.k.m.MTop? && st'.k.m.MSignal? {
      BufferNumber(st);
      MainFresh(st, st', kind, Word(st.l.first, 8) + |st.l.sent|);
    }
  }

  lemma MainAll(st: State, st': State, kind: Kind)
    requires Inv(st) && MNext(st, st', kind)
    ensures DataInv(st')
  {
    MainSucceeds(st, st', kind);
    MainFlight(st, st');
    MainKeeps(st, st');
    if st.k.m.MCheck? && st.k.h.readSuccess { CountCounted(st, st'); } else { MainCounted(st, st'); }
  }

  lemma ThreadAll(st: State, st': State, kind: Kind)
    requires Inv(st) && TNext(st, st', kind)
    ensures DataInv(st')
  {
    ThreadSteps(st, st', kind);
    ThreadFlight(st, st');
    ThreadBuffer(st, st');
    ThreadSent(st, st');
    ThreadCounted(st, st');
  }

  lemma ServerAll(st: State, st': State)
    requires Inv(st) && SNext(st, st')
    ensures DataInv(st')
  {
    ServerSteps(st, st');
    if st.k.s.SWork? && !Ok(st) { DroppedIsFirst(st); }
    ServerFlight(st, st');
    ServerKeeps(st, st');
  }

  lemma Keeps(st: State, st': State, kind: Kind)
    requires Inv(st) && Next(st, st', kind)
    ensures Inv(st')
  {
    ControlFollows(st, st', kind);
    H.Keeps(st.k, st'.k, kind);
    if MNext(st, st', kind) {
      MainAll(st, st', kind);
    } else if TNext(st, st', kind) {
      ThreadAll(st, st', kind);
    } else if SNext(st, st') {
      ServerAll(st, st');
    } else {
      SpuriousKeeps(st, st');
    }
  }
}
