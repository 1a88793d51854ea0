/** The lock-free echo with its data: one ring used in both directions, the two sides' buffers, and what
    the client counts (lfshm_blocking.c:239-388). */
module FutexEcho {
  import opened Bytes
  import opened Config
  import opened Frames
  import opened RingLayout
  import opened Messages
  import opened FutexControl
  import FutexProgress

  /** sent and got, the requests written and the responses counted, are auxiliary. */
  datatype State = State(k: Control, size: nat, ring: seq<Message>, cbuf: seq<byte>, csize: nat, sbuf: Message,
                         bytes: nat, sent: seq<Message>, got: seq<Message>)

  /** The state setup leaves, with the client's sequence number zeroed (lines 86-93, 305-310). */
  ghost predicate Init(st: State) {
    && ControlInit(st.k) && Fits(st.size, 0, LONGEST)
    && st.ring == [] && |st.cbuf| == MAX_MSG_SIZE && Word(st.cbuf, 8) == 0
    && st.bytes == 0 && st.sent == st.got == []
  }

  /** What the client passes to ring_buffer_write: as many bytes as the message says it has. */
  function Outgoing(st: State): Message {
    if DATA <= |st.cbuf| then Cut(st.cbuf, Word(st.cbuf, 4)) else []
  }

  predicate CanWrite(st: State, m: Message) {
    Fits(st.size, |EncodeAll(st.ring)|, |m|)
  }

  predicate CanRead(st: State) {
    st.ring != [] && |st.ring[0]| <= MAX_MSG_SIZE
  }

  /** The result of the ring operation the client's next step completes. */
  predicate ClientOk(st: State) {
    if st.k.c.CWriting? then CanWrite(st, Outgoing(st)) else CanRead(st)
  }

  predicate ServerOk(st: State) {
    if st.k.s.SWriting? then CanWrite(st, st.sbuf) else CanRead(st)
  }

  ghost predicate CNext(st: State, st': State) {
    && ClientNext(st.k, st'.k, ClientOk(st))
    && match st.k.c
       case CTop =>
         if st'.k.c.CExit? then st' == st.(k := st'.k)
         else NewRequest(st.cbuf, st'.cbuf) && st' == st.(k := st'.k, cbuf := st'.cbuf)
       case CWriting =>
         var m := Outgoing(st);
         st' == if ClientOk(st) then st.(k := st'.k, ring := st.ring + [m], sent := st.sent + [m]) else st.(k := st'.k)
       case CReading =>
         st' == if ClientOk(st)
                then st.(k := st'.k, cbuf := Laid(st.cbuf, st.ring[0]),
                         csize := |st.ring[0]|, ring := st.ring[1..])
                else st.(k := st'.k, csize := 0)
       case CCount => st' == st.(k := st'.k, bytes := st.bytes + st.csize, got := st.got + [Cut(st.cbuf, st.csize)])
       case _ => st' == st.(k := st'.k)
  }

  ghost predicate SNext(st: State, st': State) {
    && ServerNext(st.k, st'.k, ServerOk(st))
    && match st.k.s
       case SReading =>
         st' == if ServerOk(st) then st.(k := st'.k, sbuf := st.ring[0], ring := st.ring[1..]) else st.(k := st'.k)
       case SWriting => st' == if ServerOk(st) then st.(k := st'.k, ring := st.ring + [st.sbuf]) else st.(k := st'.k)
       case _ => st' == st.(k := st'.k)
  }

  ghost predicate StepAt(run: seq<State>, i: int)
    requires 0 <= i < |run| - 1
  {
    CNext(run[i], run[i + 1]) || SNext(run[i], run[i + 1])
  }

  ghost predicate IsRun(run: seq<State>) {
    && |run| > 0 && Init(run[0])
    && forall i {:trigger StepAt(run, i)} :: 0 <= i < |run| - 1 ==> StepAt(run, i)
  }

  // ---- the invariant on the data ----

  /** The request in flight. */
  function Current(st: State): Message {
    if st.sent == [] then [] else st.sent[|st.sent| - 1]
  }

  /** The client holds no request the server might answer. */
  predicate Settled(c: Client) {
    c.CTop? || c.CWriting?
  }

  /** Where the request in flight is: in the ring, or in the hands of one side. */
  ghost predicate Flight(st: State) {
    var c, s, m := st.k.c, st.k.s, Current(st);
    && (Settled(c) ==> st.ring == [])
    && (c.CExit? ==> st.ring == [] || st.ring == [m])
    && (!Settled(c) && !c.CExit? ==>
          st.ring == if c.CClear? || c.CCount? || s.SClear? || s.SWriting? then [] else [m])
    && (s.SClear? || s.SWriting? ==> st.sbuf == m)
    && (c.CClear? || c.CCount? ==> st.csize == |m|)
  }

  /** The client's buffer starts with the request in flight, or already holds the next one. */
  ghost predicate Buffers(st: State) {
    && Fits(st.size, 0, LONGEST) && |st.cbuf| == MAX_MSG_SIZE
    && |Current(st)| <= LONGEST && |Outgoing(st)| <= (if st.k.c.CWriting? then LONGEST else MAX_MSG_SIZE)
    && (!st.k.c.CWriting? ==> Cut(st.cbuf, |Current(st)|) == Current(st))
  }

  /** What came back and what was counted. */
  ghost predicate Logs(st: State) {
    && (if Settled(st.k.c) then st.got == st.sent
        else if st.k.c.CExit? then st.got == st.sent || (st.sent != [] && st.got == st.sent[..|st.sent| - 1])
        else st.sent != [] && st.got == st.sent[..|st.sent| - 1])
    && |st.got| == st.k.tally.ops && st.bytes == Total(st.got)
  }

  /** The requests are numbered from one. */
  ghost predicate Numbers(st: State) {
    && |st.cbuf| == MAX_MSG_SIZE
    && (forall i :: 0 <= i < |st.sent| ==> Numbered(st.sent[i], i + 1))
    && (if st.k.c.CWriting? then Numbered(Outgoing(st), |st.sent| + 1) else Word(st.cbuf, 8) == U32(|st.sent|))
  }

  ghost predicate Validated(st: State) {
    && (forall m :: m in st.sent ==> Checks(m))
    && (st.k.c.CWriting? ==> Checks(Outgoing(st)))
  }

  ghost predicate Inv(st: State) {
    ControlInv(st.k) && Flight(st) && Buffers(st) && Logs(st) && Numbers(st) && Validated(st)
  }

  lemma InitHolds(st: State)
    requires Init(st)
    ensures Inv(st)
  {
  }

  /** Every ring operation the two loops are about to complete succeeds. */
  lemma RingOperationsSucceed(st: State)
    requires Turns(st.k) && Flight(st) && Buffers(st) && Logs(st)
    ensures st.k.c.CWriting? || st.k.c.CReading? ==> ClientOk(st)
    ensures st.k.s.SWriting? || st.k.s.SReading? ==> ServerOk(st)
  {
    assert EncodeAll([]) == [];
  }

  /** What the client's step is, given the invariant. */
  ghost predicate CSteps(st: State, st': State) {
    && ClientNext(st.k, st'.k, true)
    && match st.k.c
       case CTop => st' == st.(k := st'.k) || (st'.k.c.CWriting? && st' == st.(k := st'.k, cbuf := st'.cbuf))
       case CWriting => st' == st.(k := st'.k, ring := st.ring + [Outgoing(st)], sent := st.sent + [Outgoing(st)])
       case CReading =>
         && st.ring != []
         && st' == st.(k := st'.k, cbuf := Laid(st.cbuf, st.ring[0]), csize := |st.ring[0]|, ring := st.ring[1..])
       case CCount => st' == st.(k := st'.k, bytes := st.bytes + st.csize, got := st.got + [Cut(st.cbuf, st.csize)])
       case _ => st' == st.(k := st'.k)
  }

  lemma ClientSucceeds(st: State, st': State)
    requires Turns(st.k) && Flight(st) && Buffers(st) && Logs(st) && Numbers(st) && CNext(st, st')
    ensures CSteps(st, st') && (st'.k.c.CWriting? ==> HoldsRequest(st'.cbuf, |st.sent| + 1))
  {
    RingOperationsSucceed(st);
    if st'.k.c.CWriting? { FreshRequest(st.cbuf, st'.cbuf, |st.sent|); }
  }

  lemma ClientFlight(st: State, st': State)
    requires Turns(st.k) && Flags(st.k) && Flight(st) && CSteps(st, st')
    ensures Flight(st')
  {
  }

  lemma ServerFlight(st: State, st': State)
    requires Turns(st.k) && Flags(st.k) && Flight(st) && SNext(st, st')
    requires st.k.s.SWriting? || st.k.s.SReading? ==> ServerOk(st)
    ensures Flight(st')
  {
  }

  lemma ClientBuffers(st: State, st': State)
    requires Flight(st) && Buffers(st) && CSteps(st, st')
    requires st'.k.c.CWriting? ==> HoldsRequest(st'.cbuf, |st.sent| + 1)
    ensures Buffers(st')
  {
    if st.k.c.CWriting? {
      assert Current(st') == Outgoing(st);
    } else if st.k.c.CReading? {
      assert st'.cbuf == st.cbuf;
    }
  }

  lemma ClientLogs(st: State, st': State)
    requires Flight(st) && Buffers(st) && Logs(st) && CSteps(st, st')
    ensures Logs(st')
  {
    if st.k.c.CCount? {
      assert st'.got == st.sent;
      TotalAppend(st.got, Cut(st.cbuf, st.csize));
    } else if st.k.c.CWriting? {
      assert st'.sent[..|st.sent|] == st.sent;
    }
  }

  lemma ClientNumbers(st: State, st': State)
    requires Flight(st) && Buffers(st) && Numbers(st) && CSteps(st, st')
    requires st'.k.c.CWriting? ==> HoldsRequest(st'.cbuf, |st.sent| + 1)
    ensures Numbers(st')
  {
    if st.k.c.CWriting? {
      assert Word(st.cbuf, 8) == Word(Outgoing(st), 8);
    } else if st.k.c.CReading? {
      assert st'.cbuf == st.cbuf;
    }
  }

  lemma ClientValidated(st: State, st': State)
    requires Validated(st) && CSteps(st, st')
    requires st'.k.c.CWriting? ==> HoldsRequest(st'.cbuf, |st.sent| + 1)
    ensures Validated(st')
  {
  }

  /** The server touches neither the client's buffer nor the logs, and moves the client only by waking it. */
  lemma ServerQuiet(st: State, st': State)
    requires SNext(st, st')
    ensures st' == st.(k := st'.k, ring := st'.ring, sbuf := st'.sbuf)
    ensures st'.k.tally.ops == st.k.tally.ops
    ensures st'.k.c == st.k.c || (st.k.c.CAsleep? && st'.k.c.CTest?)
  {
  }

  lemma ServerKeepsData(st: State, st': State)
    requires Buffers(st) && Logs(st) && Numbers(st) && Validated(st) && SNext(st, st')
    ensures Buffers(st') && Logs(st') && Numbers(st') && Validated(st')
  {
    ServerQuiet(st, st');
  }

  /** The step the whole system takes is one of the control skeleton in which ring operations succeed. */
  lemma ControlFollows(st: State, st': State)
    requires Inv(st) && (CNext(st, st') || SNext(st, st'))
    ensures ClientNext(st.k, st'.k, true) || ServerNext(st.k, st'.k, true)
  {
    RingOperationsSucceed(st);
  }

  lemma Keeps(st: State, st': State)
    requires Inv(st) && (CNext(st, st') || SNext(st, st'))
    ensures Inv(st')
  {
    RingOperationsSucceed(st);
    ControlFollows(st, st');
    if CNext(st, st') {
      ClientSucceeds(st, st');
      ClientFlight(st, st');
      ClientBuffers(st, st');
      ClientLogs(st, st');
      ClientNumbers(st, st');
      ClientValidated(st, st');
    } else {
      ServerFlight(st, st');
      ServerKeepsData(st, st');
    }
    ControlKeeps(st.k, st'.k);
  }
}
