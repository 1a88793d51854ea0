/** The mutex echo whose client is split in two (shm_nonblocking.c:217-427): the main thread builds and
    checks messages, a client thread moves them through the ring, and two interrupts pass the message
    buffer between them. A step is one critical section, one interrupt operation or one test; condition
    variables may also wake spuriously. This is the control skeleton, apart from the bytes moved: whether
    a write fits and a message validates comes from outside, within what HandoffEcho shows. */
module Handoff {
  import opened Interrupts

  datatype Main =
    | MTop | MSignal | MAwait | MCheck            // the loop
    | MExit | MSigR | MSigW | MJoin | MDone       // set should_exit, signal both interrupts, join

  datatype Thread =
    | TTest | TAwait
    | TLock | TWait | TWoken                      // about to lock; in cond_wait; about to relock
    | TSigR | TNotReady | TExit

  datatype Server = STop | SLock | SWait | SWoken | SWork | SReply | SFin | SDone

  /** What the two client threads share, besides the message buffer. */
  datatype Hand = Hand(readIntr: nat, writeIntr: nat, shouldExit: bool, readSuccess: bool)

  /** The shared memory; ring counts the messages in the ring, held says the thread keeps the mutex. */
  datatype Shared = Shared(ready: bool, msgAvail: bool, respAvail: bool, held: bool, ring: nat)

  /** Auxiliary: turn (a request is unanswered), served, bogus (a response raised by the shutdown alone),
      done (responses the thread took), late (requests written after should_exit), dropped (the server
      found one invalid and did not answer) and spurious (spurious wakeups). */
  datatype Aux = Aux(turn: bool, served: nat, bogus: nat, done: nat, late: nat, dropped: bool, spurious: nat)

  datatype State = State(m: Main, t: Thread, s: Server, ops: nat, h: Hand, r: Shared, x: Aux)

  ghost predicate Init(st: State) {
    st == State(MTop, TTest, STop, 0, Hand(0, 0, false, false), Shared(true, false, false, false, 0),
                Aux(false, 0, 0, 0, 0, false, 0))
  }

  // ---- main thread ----

  function MStep(st: State, kind: Kind): State {
    match st.m
    case MSignal => st.(m := MAwait, h := st.h.(writeIntr := st.h.writeIntr + 1))
    case MAwait =>
      if st.h.readIntr > 0 then st.(m := MCheck, h := st.h.(readIntr := Consume(kind, st.h.readIntr))) else st
    case MCheck => if st.h.readSuccess then st.(m := MTop, ops := st.ops + 1) else st.(m := MExit)
    case MExit => st.(m := MSigR, h := st.h.(shouldExit := true))
    case MSigR => st.(m := MSigW, h := st.h.(readIntr := st.h.readIntr + 1))
    case MSigW => st.(m := MJoin, h := st.h.(writeIntr := st.h.writeIntr + 1))
    case MJoin => if st.t.TExit? then st.(m := MDone) else st
    case _ => st
  }

  /** The main thread is not blocked. */
  predicate MReady(st: State) {
    !st.m.MDone? && (st.m.MAwait? ==> st.h.readIntr > 0) && (st.m.MJoin? ==> st.t.TExit?)
  }

  ghost predicate MNext(st: State, st': State, kind: Kind) {
    && MReady(st)
    && if st.m.MTop? then st' == st.(m := MExit) || st' == st.(m := MSignal) else st' == MStep(st, kind)
  }

  // ---- client thread ----

  /** Reading the response, still in the critical section. */
  function Collect(st: State, got: bool): State {
    st.(t := TSigR, h := st.h.(readSuccess := got),
        r := st.r.(ring := if got && st.r.ring > 0 then st.r.ring - 1 else st.r.ring, respAvail := false),
        x := st.x.(done := st.x.done + 1))
  }

  /** Writing the request, raising message_available, then either giving up, waiting or going on. */
  function Submit(st: State, wrote: bool, got: bool): State {
    if !wrote then st.(t := TExit)
    else
      var st1 := st.(r := st.r.(ring := st.r.ring + 1, msgAvail := true), s := if st.s.SWait? then SWoken else st.s,
                     x := st.x.(turn := true, late := st.x.late + (if st.h.shouldExit then 1 else 0)));
      if !st.r.ready then st1.(t := TNotReady, r := st1.r.(held := true), h := st1.h.(readSuccess := false))
      else if st.r.respAvail then Collect(st1, got) else st1.(t := TWait)
  }

  function TStep(st: State, kind: Kind, wrote: bool, got: bool): State {
    match st.t
    case TTest => st.(t := if st.h.shouldExit then TExit else TAwait)
    case TAwait =>
      if st.h.writeIntr > 0 then st.(t := TLock, h := st.h.(writeIntr := Consume(kind, st.h.writeIntr))) else st
    case TLock => Submit(st, wrote, got)
    case TWoken => if st.r.respAvail then Collect(st, got) else st.(t := TWait)
    case TNotReady => st.(t := TExit, h := st.h.(readIntr := st.h.readIntr + 1), r := st.r.(held := false))
    case TSigR => st.(t := TTest, h := st.h.(readIntr := st.h.readIntr + 1))
    case _ => st
  }

  predicate TReady(st: State) {
    && !st.t.TWait? && !st.t.TExit? && (st.t.TAwait? ==> st.h.writeIntr > 0)
    && (st.t.TLock? || st.t.TWoken? ==> !st.r.held)
  }

  /** Whether the thread's operations may come out so: an empty ring has room for a request that the main
      thread built, and a message in the ring can be read. */
  predicate TMay(st: State, wrote: bool, got: bool) {
    (st.t.TLock? && st.r.ring == 0 && !st.h.shouldExit ==> wrote) && (got <==> st.r.ring > 0 || st.t.TLock?)
  }

  ghost predicate TNext(st: State, st': State, kind: Kind) {
    TReady(st) && exists wrote, got :: TMay(st, wrote, got) && st' == TStep(st, kind, wrote, got)
  }

  // ---- server ----

  /** ok: the message validates, or its reply fits; got: the read succeeds. */
  function SStep(st: State, ok: bool, got: bool): State {
    match st.s
    case SWork => if ok then st.(s := SReply) else st.(s := STop, x := st.x.(turn := false, dropped := true))
    case SReply =>
      if ok then st.(s := STop, t := if st.t.TWait? then TWoken else st.t,
                     r := st.r.(ring := st.r.ring + 1, respAvail := true),
                     x := st.x.(turn := false, served := st.x.served + 1))
      else st.(s := STop)
    case SFin =>
      st.(s := SDone, r := st.r.(ready := false, respAvail := true), t := if st.t.TWait? then TWoken else st.t,
          x := st.x.(turn := false, bogus := st.x.bogus + (if st.x.turn then 1 else 0)))
    case SDone => st
    case SWait => st
    case _ =>  // SLock, SWoken, STop: the wait loop and the read
      if !st.r.msgAvail then st.(s := SWait)
      else if got && st.r.ring > 0 then st.(s := SWork, r := st.r.(ring := st.r.ring - 1, msgAvail := false))
      else st.(s := STop)
  }

  predicate SReady(st: State) {
    && !st.s.SWait? && !st.s.SDone?
    && (st.s.SLock? || st.s.SWoken? || st.s.SReply? || st.s.SFin? ==> !st.r.held)
  }

  /** Requests the main thread built validate, and a reply fits an empty ring. */
  predicate SMay(st: State, ok: bool, got: bool) {
    && (st.s.SWork? && st.x.late == 0 ==> ok) && (st.s.SReply? && st.r.ring == 0 ==> ok)
    && (got <==> st.r.ring > 0)
  }

  ghost predicate SNext(st: State, st': State) {
    && SReady(st)
    && if st.s.STop? then st' == st.(s := SFin) || st' == st.(s := SLock)
       else exists ok, got :: SMay(st, ok, got) && st' == SStep(st, ok, got)
  }

  // ---- spurious wakeups ----

  ghost predicate Spurious(st: State, st': State) {
    var x := st.x.(spurious := st.x.spurious + 1);
    (st.t.TWait? && st' == st.(t := TWoken, x := x)) || (st.s.SWait? && st' == st.(s := SWoken, x := x))
  }

  ghost predicate Next(st: State, st': State, kind: Kind) {
    MNext(st, st', kind) || TNext(st, st', kind) || SNext(st, st') || Spurious(st, st')
  }

  // ---- the invariant ----

  predicate InLoop(m: Main) {
    m.MTop? || m.MSignal? || m.MAwait? || m.MCheck?
  }

  /** The main thread may touch msg, msg_size and read_success. */
  predicate MainOwns(m: Main) {
    m.MTop? || m.MSignal? || m.MCheck? || m.MExit? || m.MSigR? || m.MSigW? || m.MDone?
  }

  predicate ThreadOwns(t: Thread) {
    t.TLock? || t.TWait? || t.TWoken? || t.TSigR? || t.TNotReady?
  }

  predicate TWaiting(t: Thread) {
    t.TWait? || t.TWoken?
  }

  function B(b: bool): nat {
    if b then 1 else 0
  }

  /** The buffer is in one place: with one of the two threads, or under way in an interrupt. */
  ghost predicate Token(st: State) {
    && (InLoop(st.m) ==> B(MainOwns(st.m)) + B(ThreadOwns(st.t)) + st.h.readIntr + st.h.writeIntr == 1
                         && (st.t.TExit? ==> st.h.writeIntr == 0) && !st.h.shouldExit)
    && (st.m.MExit? || st.m.MSigR? || st.m.MSigW? ==>
          !ThreadOwns(st.t) && st.h.writeIntr == 0 && st.h.readIntr == B(st.m.MSigW?)
          && (st.m.MExit? <==> !st.h.shouldExit))
    && (st.m.MJoin? || st.m.MDone? ==>
          && st.h.shouldExit && st.h.readIntr >= 1 && B(ThreadOwns(st.t)) + st.h.readIntr + st.h.writeIntr <= 2
          && (!st.t.TExit? ==> B(ThreadOwns(st.t)) + st.h.readIntr + st.h.writeIntr == 2))
    && (st.m.MDone? ==> st.t.TExit?)
    && (st.t.TExit? && !st.h.shouldExit ==>
          st.s.SDone? && !st.h.readSuccess && (st.m.MAwait? || st.m.MCheck? || st.m.MExit?))
    && (st.r.held <==> st.t.TNotReady?) && (st.t.TNotReady? ==> !st.h.readSuccess)
  }

  predicate Serving(s: Server) {
    s.SWork? || s.SReply?
  }

  /** Flags, turn and ring between the client thread and the server. */
  ghost predicate Exchange(st: State) {
    && (st.r.ready <==> !st.s.SDone?)
    && (st.t.TWait? ==> !st.r.respAvail) && (st.s.SWait? ==> !st.r.msgAvail)
    && (Serving(st.s) ==> st.x.turn)
    && (if st.s.SDone? then TWaiting(st.t) ==> st.r.respAvail && !st.x.turn
        else
          && (st.x.turn ==> TWaiting(st.t) && !st.x.dropped) && !st.t.TNotReady?
          && (st.r.msgAvail <==> st.x.turn && !Serving(st.s))
          && (st.r.respAvail <==> !st.x.turn && !st.x.dropped && TWaiting(st.t)))
    && (if TWaiting(st.t) then st.r.ring == 1 - B(Serving(st.s) || st.x.dropped)
        else if st.t.TNotReady? || st.t.TExit? then st.r.ring <= 1 else st.r.ring == 0)
  }

  /** A response on its way to the main thread's count. */
  function Uncounted(st: State): nat {
    B(st.h.readSuccess && (st.t.TSigR? || st.h.readIntr == 1 || st.m.MCheck?))
  }

  ghost predicate Tally(st: State) {
    && st.x.bogus <= B(st.s.SDone?)
    && (if InLoop(st.m)
        then st.x.served + st.x.bogus == st.x.done + B(TWaiting(st.t) && !st.x.turn)
             && (st.t.TSigR? ==> st.h.readSuccess) && st.ops + Uncounted(st) == st.x.done
             && (!st.s.SDone? && (st.m.MCheck? || st.h.readIntr == 1) ==> st.h.readSuccess)
        else st.ops <= st.x.served + st.x.bogus)
  }

  /** After should_exit the thread starts at most one more exchange, and never waits for a third signal. */
  ghost predicate OneMore(st: State) {
    && st.x.late <= 1 && (st.x.late == 1 ==> st.h.shouldExit && !st.t.TAwait? && !st.t.TLock?)
    && (st.x.dropped ==> st.x.late == 1 && !st.x.turn && !Serving(st.s))
    && (st.h.shouldExit && !st.m.MSigR? && !st.m.MSigW? && st.t.TAwait? ==> st.h.writeIntr > 0)
  }

  ghost predicate Inv(st: State) {
    Token(st) && Exchange(st) && Tally(st) && OneMore(st)
  }

  lemma MKeepsToken(st: State, st': State, kind: Kind)
    requires Token(st) && Exchange(st) && MNext(st, st', kind)
    ensures Token(st')
  {
  }

  lemma MKeepsExchange(st: State, st': State, kind: Kind)
    requires Exchange(st) && MNext(st, st', kind)
    ensures Exchange(st')
  {
  }

  lemma MKeepsTally(st: State, st': State, kind: Kind)
    requires Token(st) && Exchange(st) && Tally(st) && MNext(st, st', kind)
    ensures Tally(st')
  {
  }

  lemma MKeepsOneMore(st: State, st': State, kind: Kind)
    requires Token(st) && Exchange(st) && OneMore(st) && MNext(st, st', kind)
    ensures OneMore(st')
  {
  }

  lemma TKeepsToken(st: State, st': State, kind: Kind)
    requires Token(st) && Exchange(st) && TNext(st, st', kind)
    ensures Token(st')
  {
  }

  lemma TKeepsExchange(st: State, st': State, kind: Kind)
    requires Token(st) && Exchange(st) && OneMore(st) && TNext(st, st', kind)
    ensures Exchange(st')
  {
  }

  lemma TKeepsTally(st: State, st': State, kind: Kind)
    requires Token(st) && Exchange(st) && Tally(st) && OneMore(st) && TNext(st, st', kind)
    ensures Tally(st')
  {
  }

  lemma TKeepsOneMore(st: State, st': State, kind: Kind)
    requires Token(st) && OneMore(st) && TNext(st, st', kind)
    ensures OneMore(st')
  {
  }

  lemma SKeepsToken(st: State, st': State)
    requires Token(st) && Exchange(st) && (SNext(st, st') || Spurious(st, st'))
    ensures Token(st')
  {
  }

  lemma SKeepsExchange(st: State, st': State)
    requires Token(st) && Exchange(st) && (SNext(st, st') || Spurious(st, st'))
    ensures Exchange(st')
  {
  }

  lemma SKeepsTally(st: State, st': State)
    requires Token(st) && Exchange(st) && Tally(st) && OneMore(st) && (SNext(st, st') || Spurious(st, st'))
    ensures Tally(st')
  {
  }

  lemma SKeepsOneMore(st: State, st': State)
    requires Exchange(st) && OneMore(st) && (SNext(st, st') || Spurious(st, st'))
    ensures OneMore(st')
  {
  }

  // ---- progress ----

  function MRank(m: Main): nat {
    match m
    case MTop => 104
    case MSignal => 103
    case MAwait => 54
    case MCheck => 53
    case MExit => 52
    case MSigR => 51
    case MSigW => 50
    case MJoin => 1
    case MDone => 0
  }

  function TRank(st: State): nat {
    match st.t
    case TTest => if st.h.writeIntr > 0 then 48 else 2
    case TAwait =>
      if st.h.writeIntr > 0 then 46 else 0
    case TLock => 45
    case TWoken => 11
    case TWait => 10
    case TSigR => 3
    case TNotReady => 3
    case TExit => 0
  }

  function SRank(st: State): nat {
    match st.s
    case STop => if st.x.turn then 30 else 8
    case SLock => if st.x.turn then 28 else 6
    case SWoken => if st.x.turn then 25 else 5
    case SWait => 4
    case SWork => 20
    case SReply => 19
    case SFin => 3
    case SDone => 0
  }

  function Rank(st: State): (r: nat)
    ensures r <= 182
  {
    MRank(st.m) + TRank(st) + SRank(st)
  }

  lemma MProgress(st: State, st': State, kind: Kind)
    requires Inv(st) && MNext(st, st', kind)
    ensures if st'.ops == st.ops then Rank(st') < Rank(st) else st'.ops == st.ops + 1
  {
  }

  lemma TProgress(st: State, st': State, kind: Kind)
    requires Inv(st) && TNext(st, st', kind)
    ensures st'.ops == st.ops && Rank(st') < Rank(st)
  {
  }

  lemma SProgress(st: State, st': State)
    requires Inv(st) && SNext(st, st')
    ensures st'.ops == st.ops && Rank(st') < Rank(st)
  {
  }

  // ---- every step ----

  lemma InitHolds(st: State)
    requires Init(st)
    ensures Inv(st) && Rank(st) <= 182
  {
  }

  lemma Keeps(st: State, st': State, kind: Kind)
    requires Inv(st) && Next(st, st', kind)
    ensures Inv(st')
  {
    if MNext(st, st', kind) {
      MKeepsToken(st, st', kind);
      MKeepsExchange(st, st', kind);
      MKeepsTally(st, st', kind);
      MKeepsOneMore(st, st', kind);
    } else if TNext(st, st', kind) {
      TKeepsToken(st, st', kind);
      TKeepsExchange(st, st', kind);
      TKeepsTally(st, st', kind);
      TKeepsOneMore(st, st', kind);
    } else {
      SKeepsToken(st, st');
      SKeepsExchange(st, st');
      SKeepsTally(st, st');
      SKeepsOneMore(st, st');
    }
  }

  /** A step costs a unit of rank, unless it counts an operation or is a spurious wakeup. */
  lemma StepCost(st: State, st': State, kind: Kind)
    requires Inv(st) && Next(st, st', kind)
    ensures 1 + Rank(st') + 183 * st.ops + 2 * st.x.spurious <= Rank(st) + 183 * st'.ops + 2 * st'.x.spurious
  {
    if MNext(st, st', kind) {
      MProgress(st, st', kind);
    } else if TNext(st, st', kind) {
      TProgress(st, st', kind);
    } else if SNext(st, st') {
      SProgress(st, st');
    }
  }

  /** No one has a step left, but for spurious wakeups. */
  predicate Stuck(st: State) {
    !MReady(st) && !TReady(st) && !SReady(st)
  }

  /** The join waits for a thread that waits for an answer to a request the server has dropped. */
  predicate Deadlocked(st: State) {
    st.x.dropped && st.m.MJoin? && st.t.TWait? && st.s.SWait?
  }

  /** Nothing else can stop the three before the join has returned. */
  lemma StuckExactly(st: State)
    requires Inv(st)
    ensures Stuck(st) <==> (st.m.MDone? && (st.s.SWait? || st.s.SDone?)) || Deadlocked(st)
  {
  }
}
