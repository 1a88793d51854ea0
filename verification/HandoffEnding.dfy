/** How the three-party echo ends (shm_nonblocking.c:217-427): when the join can fail to return, when the
    server can still return, and when the main thread counts an operation that nobody answered. */
module HandoffEnding {
  import opened Bytes
  import opened Config
  import opened Frames
  import opened RingLayout
  import opened LockFreeRing
  import opened Messages
  import opened Interrupts
  import opened HandoffEcho
  import opened HandoffRuns
  import H = Handoff

  // ---- conditions ----

  predicate InWait(s: H.Server) {
    s.SLock? || s.SWait? || s.SWoken?
  }

  /** The server has left its loop. */
  predicate Closing(s: H.Server) {
    s.SFin? || s.SDone?
  }

  /** The thread is past its test of should_exit, or can still pass it. */
  predicate Coming(k: H.State) {
    k.t.TAwait? || k.t.TLock? || (k.m.MExit? && k.t.TTest?)
  }

  /** The main thread has left its loop while the server is in its wait with nothing to read, and the thread
      will write no more; fits: what the buffer holds goes into an empty ring. */
  predicate Doomed(k: H.State, fits: bool) {
    InWait(k.s) && !k.r.msgAvail && !H.InLoop(k.m) && !(Coming(k) && fits)
  }

  predicate BufferFits(st: State) {
    Fits(st.size, 0, |Outgoing(st.d.buf)|)
  }

  /** The shutdown takes the lock while a request that no one has taken is in the ring. */
  predicate Lures(before: H.State, after: H.State) {
    before.s.SFin? && after.s.SDone? && before.r.msgAvail
  }

  /** The ring operations of the echo are those of the bounded queue both ring forms implement. */
  lemma RingIsQueue(st: State, m: Message)
    ensures CanWrite(st, m) <==> QueueStep(st.size, st.d.ring, Put(m)).1.ok
    ensures CanRead(st.d.ring) <==> QueueStep(st.size, st.d.ring, Get(128 * 1024)).1.ok
  {
  }

  // ---- what no step undoes ----

  /** What becomes of the closing and of the counts in a step, and what it costs. */
  ghost predicate After(k: H.State, k': H.State) {
    && (Closing(k.s) ==> Closing(k'.s) && k'.x.served == k.x.served)
    && k'.x.bogus == k.x.bogus + (if Lures(k, k') then 1 else 0)
    && k.ops <= k'.ops && (k'.ops > k.ops ==> H.InLoop(k.m)) && (!H.InLoop(k.m) ==> !H.InLoop(k'.m))
  }

  lemma ServerAfter(k: H.State, k': H.State)
    requires H.Exchange(k) && (H.SNext(k, k') || H.Spurious(k, k'))
    ensures After(k, k')
  {
  }

  lemma ClientAfter(k: H.State, k': H.State, kind: Kind)
    requires H.MNext(k, k', kind) || H.TNext(k, k', kind)
    ensures After(k, k')
  {
  }

  lemma StepAfter(k: H.State, k': H.State, kind: Kind)
    requires H.Inv(k) && H.Next(k, k', kind)
    ensures After(k, k')
  {
    if H.MNext(k, k', kind) || H.TNext(k, k', kind) { ClientAfter(k, k', kind); } else { ServerAfter(k, k'); }
  }

  lemma MainDoomed(k: H.State, k': H.State, kind: Kind, fits: bool)
    requires H.Token(k) && Doomed(k, fits) && H.MNext(k, k', kind)
    ensures Doomed(k', fits)
  {
  }

  lemma ThreadDoomed(k: H.State, k': H.State, kind: Kind, wrote: bool, got: bool, fits: bool)
    requires H.Token(k) && Doomed(k, fits) && H.TReady(k) && k' == H.TStep(k, kind, wrote, got)
    requires k.t.TLock? ==> wrote == fits
    ensures Doomed(k', fits)
  {
  }

  lemma ServerDoomed(k: H.State, k': H.State, fits: bool)
    requires Doomed(k, fits) && (H.SNext(k, k') || H.Spurious(k, k'))
    ensures Doomed(k', fits)
  {
  }

  /** Outside its loop the main thread builds nothing, and what the thread reads back it wrote. */
  lemma BufferStays(st: State, st': State, kind: Kind)
    requires Inv(st) && Next(st, st', kind) && !H.InLoop(st.k.m)
    ensures BufferFits(st') == BufferFits(st)
    ensures st.k.t.TLock? ==> Wrote(st) == BufferFits(st)
  {
    assert EncodeAll([]) == [];
    if TNext(st, st', kind) {
      ThreadSteps(st, st', kind);
    }
  }

  lemma DoomedStays(st: State, st': State, kind: Kind)
    requires Inv(st) && Next(st, st', kind) && Doomed(st.k, BufferFits(st))
    ensures Doomed(st'.k, BufferFits(st'))
  {
    var fits := BufferFits(st);
    BufferStays(st, st', kind);
    ControlFollows(st, st', kind);
    if MNext(st, st', kind) {
      MainDoomed(st.k, st'.k, kind, fits);
    } else if TNext(st, st', kind) {
      ThreadDoomed(st.k, st'.k, kind, Wrote(st), Got(st), fits);
    } else if SNext(st, st') {
      ServerMay(st);
      ServerDoomed(st.k, st'.k, fits);
    } else {
      ServerDoomed(st.k, st'.k, fits);
    }
  }

  lemma LastStep(run: seq<State>, kind: Kind)
    requires IsRun(run, kind) && |run| > 1
    ensures var n := |run| - 1;
            && IsRun(run[..n], kind) && After(run[n - 1].k, run[n].k)
            && (Doomed(run[n - 1].k, BufferFits(run[n - 1])) ==> Doomed(run[n].k, BufferFits(run[n])))
  {
    var n := |run| - 1;
    FrontIsRun(run, n, kind);
    ReachedAt(run, n - 1, kind);
    ControlFollows(run[n - 1], run[n], kind);
    StepAfter(run[n - 1].k, run[n].k, kind);
    if Doomed(run[n - 1].k, BufferFits(run[n - 1])) { DoomedStays(run[n - 1], run[n], kind); }
  }

  lemma {:induction false} StaysDoomed(run: seq<State>, longer: seq<State>, kind: Kind)
    requires run != [] && IsRun(longer, kind) && run <= longer && Doomed(End(run).k, BufferFits(End(run)))
    ensures Doomed(End(longer).k, BufferFits(End(longer)))
    decreases |longer|
  {
    var n := |longer| - 1;
    if |run| <= n {
      LastStep(longer, kind);
      StaysDoomed(run, longer[..n], kind);
    }
  }

  lemma {:induction false} StaysClosing(run: seq<State>, longer: seq<State>, kind: Kind)
    requires run != [] && IsRun(longer, kind) && run <= longer && Closing(End(run).k.s)
    ensures Closing(End(longer).k.s) && End(longer).k.x.served == End(run).k.x.served
    decreases |longer|
  {
    var n := |longer| - 1;
    if |run| <= n {
      LastStep(longer, kind);
      StaysClosing(run, longer[..n], kind);
    }
  }

  lemma {:induction false} StaysOut(run: seq<State>, longer: seq<State>, kind: Kind)
    requires run != [] && IsRun(longer, kind) && run <= longer
    ensures End(run).k.ops <= End(longer).k.ops
    ensures !H.InLoop(End(run).k.m) ==> End(longer).k.ops == End(run).k.ops && !H.InLoop(End(longer).k.m)
    decreases |longer|
  {
    var n := |longer| - 1;
    if |run| <= n {
      LastStep(longer, kind);
      StaysOut(run, longer[..n], kind);
    }
  }

  // ---- going on ----

  /** Any party that is ready has a step; at the tests of the clock either way. */
  lemma MainCan(st: State, leave: bool, kind: Kind) returns (st': State)
    requires H.MReady(st.k) && |st.d.buf| == MAX_MSG_SIZE
    ensures MNext(st, st', kind) && (st.k.m.MTop? ==> st'.k.m == if leave then H.MExit else H.MSignal)
  {
    var k' := H.MStep(st.k, kind);
    if st.k.m.MTop? && leave {
      st' := st.(k := st.k.(m := H.MExit));
    } else if st.k.m.MTop? {
      NewRequestExists(st.d.buf);
      var buf :| NewRequest(st.d.buf, buf);
      st' := st.(k := st.k.(m := H.MSignal), d := st.d.(buf := buf));
    } else {
      st' := if st.k.m.MCheck? && st.k.h.readSuccess then Count(st).(k := k') else st.(k := k');
    }
  }

  lemma ThreadCan(st: State, kind: Kind) returns (st': State)
    requires H.TReady(st.k)
    ensures TNext(st, st', kind)
  {
    st' := TData(st).(k := H.TStep(st.k, kind, Wrote(st), Got(st)));
  }

  lemma ServerCan(st: State, leave: bool) returns (st': State)
    requires H.SReady(st.k)
    ensures SNext(st, st') && (st.k.s.STop? ==> st'.k.s == if leave then H.SFin else H.SLock)
  {
    if st.k.s.STop? {
      st' := st.(k := st.k.(s := if leave then H.SFin else H.SLock));
    } else {
      st' := SData(st).(k := H.SStep(st.k, Ok(st), CanRead(st.d.ring)));
    }
  }

  /** No one has a step left, but for spurious wakeups, and the server waits. */
  predicate Hung(k: H.State) {
    H.Stuck(k) && k.s.SWait?
  }

  function Leaving(m: H.Main): nat {
    if H.InLoop(m) && !m.MTop? then 1 else 0
  }

  predicate Further(k: H.State, k': H.State) {
    Leaving(k'.m) < Leaving(k.m) || (Leaving(k'.m) == Leaving(k.m) && H.Rank(k') < H.Rank(k))
  }

  lemma Astray(k: H.State, k': H.State, kind: Kind)
    requires H.Inv(k) && !Closing(k.s) && H.Next(k, k', kind) && k'.x.spurious == k.x.spurious
    requires (k.m.MTop? ==> !k'.m.MSignal?) && !Closing(k'.s)
    ensures Further(k, k')
  {
    if H.MNext(k, k', kind) {
      H.MProgress(k, k', kind);
    } else if H.TNext(k, k', kind) {
      H.TProgress(k, k', kind);
    } else {
      H.SProgress(k, k');
    }
  }

  /** Towards the hang: the main thread leaves at the next test of the clock, the server never does. */
  lemma AstrayChoice(st: State, kind: Kind) returns (st': State)
    requires |st.d.buf| == MAX_MSG_SIZE && !Closing(st.k.s) && !H.Stuck(st.k)
    ensures Next(st, st', kind) && !Closing(st'.k.s) && (st.k.m.MTop? ==> !st'.k.m.MSignal?)
    ensures st'.k.x.spurious == st.k.x.spurious
  {
    if H.MReady(st.k) {
      st' := MainCan(st, true, kind);
    } else if H.TReady(st.k) {
      st' := ThreadCan(st, kind);
    } else {
      st' := ServerCan(st, false);
    }
  }

  lemma AstrayStep(st: State, kind: Kind) returns (st': State)
    requires Inv(st) && !Closing(st.k.s) && !H.Stuck(st.k)
    ensures Next(st, st', kind) && !Closing(st'.k.s) && Further(st.k, st'.k)
  {
    st' := AstrayChoice(st, kind);
    ControlFollows(st, st', kind);
    Astray(st.k, st'.k, kind);
  }

  lemma Hang(run: seq<State>, kind: Kind) returns (longer: seq<State>)
    requires IsRun(run, kind) && !Closing(End(run).k.s)
    ensures IsRun(longer, kind) && run <= longer && Hung(End(longer).k)
    decreases Leaving(End(run).k.m), H.Rank(End(run).k)
  {
    longer := run;
    RunKeeps(run, kind);
    H.StuckExactly(End(run).k);
    if !H.Stuck(End(run).k) {
      var st' := AstrayStep(End(run), kind);
      longer := Extend(run, st', kind);
      longer := Hang(longer, kind);
    }
  }

  /** Responses the main thread has yet to count before its next request. */
  function Before(k: H.State): nat {
    if InWait(k.s) && !k.x.turn && H.InLoop(k.m) && !k.m.MTop? && !Building(k) then 1 else 0
  }

  predicate Closer(k: H.State, k': H.State) {
    Before(k') < Before(k) || (Before(k') == Before(k) && H.Rank(k') < H.Rank(k))
  }

  lemma ServerHomeward(k: H.State, k': H.State, fits: bool)
    requires H.Inv(k) && !Doomed(k, fits) && !k.s.SDone? && H.SNext(k, k') && (k.s.STop? ==> k'.s.SFin?)
    ensures !Doomed(k', fits) && Closer(k, k')
  {
    H.SProgress(k, k');
  }

  lemma ThreadHomeward(k: H.State, k': H.State, kind: Kind, wrote: bool, got: bool, fits: bool)
    requires H.Inv(k) && !Doomed(k, fits) && k.s.SWait?
    requires H.TReady(k) && H.TMay(k, wrote, got) && k' == H.TStep(k, kind, wrote, got)
    requires k.t.TLock? && !H.InLoop(k.m) ==> wrote == fits
    ensures !Doomed(k', fits) && Closer(k, k')
  {
    H.TProgress(k, k', kind);
  }

  lemma MainHomeward(k: H.State, k': H.State, kind: Kind, fits: bool)
    requires H.Inv(k) && !Doomed(k, fits) && k.s.SWait? && !H.TReady(k)
    requires H.MNext(k, k', kind) && (k.m.MTop? ==> k'.m.MSignal?)
    ensures !Doomed(k', fits) && Closer(k, k')
  {
    H.MProgress(k, k', kind);
  }

  /** While the server sleeps with a request to come, the thread or the main thread is ready. */
  lemma SomeoneComes(k: H.State, fits: bool)
    requires H.Inv(k) && !Doomed(k, fits) && k.s.SWait?
    ensures H.TReady(k) || H.MReady(k)
  {
  }

  /** Towards the server's return: it leaves its loop at the next test of the clock; while it sleeps, thread
      and main thread go on to the next request. */
  lemma HomewardStep(st: State, kind: Kind) returns (st': State)
    requires Inv(st) && !Doomed(st.k, BufferFits(st)) && !st.k.s.SDone?
    ensures Next(st, st', kind) && !Doomed(st'.k, BufferFits(st')) && Closer(st.k, st'.k)
  {
    var fits := BufferFits(st);
    if !st.k.s.SWait? {
      st' := ServerCan(st, true);
      ServerMay(st);
      ServerHomeward(st.k, st'.k, fits);
    } else if H.TReady(st.k) {
      st' := ThreadCan(st, kind);
      ThreadMay(st);
      if !H.InLoop(st.k.m) { BufferStays(st, st', kind); }
      ThreadHomeward(st.k, st'.k, kind, Wrote(st), Got(st), fits);
    } else {
      SomeoneComes(st.k, fits);
      st' := MainCan(st, false, kind);
      MainHomeward(st.k, st'.k, kind, fits);
    }
  }

  lemma Return(run: seq<State>, kind: Kind) returns (longer: seq<State>)
    requires IsRun(run, kind) && !Doomed(End(run).k, BufferFits(End(run)))
    ensures IsRun(longer, kind) && run <= longer && End(longer).k.s.SDone?
    decreases Before(End(run).k), H.Rank(End(run).k)
  {
    longer := run;
    if !End(run).k.s.SDone? {
      RunKeeps(run, kind);
      var st' := HomewardStep(End(run), kind);
      longer := Extend(run, st', kind);
      longer := Return(longer, kind);
    }
  }

  /** A run can go on, but for spurious wakeups, exactly if it is not stuck. */
  lemma StopsExactly(run: seq<State>, kind: Kind)
    requires IsRun(run, kind)
    ensures var st := End(run);
            (exists st': State :: MNext(st, st', kind) || TNext(st, st', kind) || SNext(st, st')) <==> !H.Stuck(st.k)
  {
    RunKeeps(run, kind);
    var st := End(run);
    if H.MReady(st.k) {
      var st' := MainCan(st, true, kind);
    } else if H.TReady(st.k) {
      var st' := ThreadCan(st, kind);
    } else if H.SReady(st.k) {
      var st' := ServerCan(st, true);
    }
  }

  // ---- when the server returns ----

  /** Some run goes on from this one to a state where the server has shut down. */
  ghost predicate MayReturn(run: seq<State>, kind: Kind) {
    exists longer: seq<State> :: IsRun(longer, kind) && run <= longer && longer != [] && End(longer).k.s.SDone?
  }

  ghost predicate MayHang(run: seq<State>, kind: Kind) {
    exists longer: seq<State> :: IsRun(longer, kind) && run <= longer && longer != [] && Hung(End(longer).k)
  }

  /** In every reachable state: the server can still shut down exactly if it is not doomed to wait, and it can
      still be left waiting for ever exactly if it has not itself left its loop. */
  lemma ServerReturnsExactly(run: seq<State>, kind: Kind)
    requires IsRun(run, kind)
    ensures MayReturn(run, kind) <==> !Doomed(End(run).k, BufferFits(End(run)))
    ensures MayHang(run, kind) <==> !Closing(End(run).k.s)
  {
    if Doomed(End(run).k, BufferFits(End(run))) {
      forall longer: seq<State> | IsRun(longer, kind) && run <= longer ensures !End(longer).k.s.SDone? {
        StaysDoomed(run, longer, kind);
      }
    } else {
      var longer := Return(run, kind);
    }
    if Closing(End(run).k.s) {
      forall longer: seq<State> | IsRun(longer, kind) && run <= longer ensures !Hung(End(longer).k) {
        StaysClosing(run, longer, kind);
      }
    } else {
      var longer := Hang(run, kind);
    }
  }

  /** Once the join has returned, doomed means no more than that the server is in its wait. */
  lemma DoomedAfterJoin(run: seq<State>, kind: Kind)
    requires IsRun(run, kind) && End(run).k.m.MDone?
    ensures Doomed(End(run).k, BufferFits(End(run))) <==> InWait(End(run).k.s)
  {
    RunKeeps(run, kind);
  }

  // ---- when an operation counts that nobody answered ----

  lemma {:induction false} LureCounts(run: seq<State>, kind: Kind)
    requires IsRun(run, kind)
    ensures End(run).k.x.bogus > 0 <==> exists i :: 0 <= i < |run| - 1 && Lures(run[i].k, run[i + 1].k)
    decreases |run|
  {
    var n := |run| - 1;
    if n > 0 {
      var before := run[..n];
      LastStep(run, kind);
      LureCounts(before, kind);
      assert forall i :: 0 <= i < n ==> before[i] == run[i];
    }
  }

  lemma EvenWhenLured(run: seq<State>, i: nat, kind: Kind)
    requires IsRun(run, kind) && i < |run| - 1 && Lures(run[i].k, run[i + 1].k)
    ensures run[i].k.ops <= run[i].k.x.served
    ensures H.InLoop(run[i].k.m) ==> run[i].k.ops == run[i].k.x.served
  {
    ReachedAt(run, i, kind);
  }

  /** When the shutdown lures the thread, no more is counted than was answered; in the loop, as much. */
  lemma LuredEven(run: seq<State>, i: nat, kind: Kind)
    requires IsRun(run, kind) && i < |run| - 1 && Lures(run[i].k, run[i + 1].k)
    ensures run[i].k.ops <= run[i].k.x.served == End(run).k.x.served
    ensures H.InLoop(run[i].k.m) ==> run[i].k.ops == run[i].k.x.served
    ensures !H.InLoop(run[i].k.m) ==> End(run).k.ops == run[i].k.ops
  {
    FrontIsRun(run, i + 1, kind);
    EvenWhenLured(run, i, kind);
    StaysClosing(run[..i + 1], run, kind);
    StaysOut(run[..i + 1], run, kind);
  }

  /** More operations are counted than were answered exactly if the shutdown found a request untaken and the
      main thread has since counted; the excess is one. */
  lemma UnservedExactly(run: seq<State>, kind: Kind)
    requires IsRun(run, kind)
    ensures var ops, served := End(run).k.ops, End(run).k.x.served;
            && (ops > served <==>
                  exists i :: 0 <= i < |run| - 1 && Lures(run[i].k, run[i + 1].k) && run[i].k.ops < ops)
            && ops <= served + 1
  {
    RunKeeps(run, kind);
    LureCounts(run, kind);
    forall i | 0 <= i < |run| - 1 && Lures(run[i].k, run[i + 1].k)
      ensures run[i].k.ops <= End(run).k.x.served
      ensures run[i].k.ops < End(run).k.ops ==> run[i].k.ops == End(run).k.x.served
    {
      LuredEven(run, i, kind);
    }
  }

  // ---- when the join returns ----

  /** No run stops before the join has returned, wherever the server's shutdown falls, but for one case: the
      first test of the clock ended the main thread's loop, the thread then wrote what the fresh buffer
      held, and the server dropped it as invalid. The thread starts at most one exchange after
      should_exit, and every operation comes within a bounded number of steps. */
  lemma JoinReturns(run: seq<State>, kind: Kind)
    requires IsRun(run, kind)
    ensures var st := End(run);
            var k := st.k;
            && (H.Stuck(k) <==> (k.m.MDone? && (k.s.SWait? || k.s.SDone?)) || H.Deadlocked(k))
            && (H.Deadlocked(k) ==> k.ops == 0 && |st.l.sent| == 1 && MayDeadlock(run[0]))
            && k.x.late <= 1 && (k.m.MDone? ==> k.t.TExit?)
            && |run| <= 183 * (k.ops + 1) + 2 * k.x.spurious
  {
    RunKeeps(run, kind);
    H.StuckExactly(End(run).k);
    SameStart(run, kind);
  }

  /** The fresh buffer holds something that goes into the ring and is not a valid message. */
  ghost predicate MayDeadlock(st: State) {
    BufferFits(st) && !Checks(Outgoing(st.d.buf))
  }

  lemma {:induction false} SameStart(run: seq<State>, kind: Kind)
    requires IsRun(run, kind)
    ensures End(run).size == run[0].size && End(run).l.first == run[0].l.first == run[0].d.buf
    decreases |run|
  {
    var n := |run| - 1;
    if n > 0 {
      FrontIsRun(run, n, kind);
      SameStart(run[..n], kind);
    }
  }

  lemma MainGoes(run: seq<State>, leave: bool, kind: Kind) returns (longer: seq<State>)
    requires IsRun(run, kind) && H.MReady(End(run).k)
    ensures IsRun(longer, kind) && longer[0] == run[0]
    ensures var k := End(run).k;
            End(longer).k == if k.m.MTop? then k.(m := if leave then H.MExit else H.MSignal) else H.MStep(k, kind)
    ensures !End(run).k.m.MTop? || leave ==> End(longer).d == End(run).d
  {
    RunKeeps(run, kind);
    var st' := MainCan(End(run), leave, kind);
    longer := Extend(run, st', kind);
  }

  lemma ThreadGoes(run: seq<State>, kind: Kind) returns (longer: seq<State>)
    requires IsRun(run, kind) && H.TReady(End(run).k)
    ensures IsRun(longer, kind) && longer[0] == run[0]
    ensures var st := End(run);
            End(longer).k == H.TStep(st.k, kind, Wrote(st), Got(st)) && End(longer).d == TData(st).d
  {
    var st' := ThreadCan(End(run), kind);
    longer := Extend(run, st', kind);
  }

  lemma ThreadOutcome(run: seq<State>, kind: Kind)
    requires IsRun(run, kind)
    ensures H.TMay(End(run).k, Wrote(End(run)), Got(End(run)))
  {
    RunKeeps(run, kind);
    ThreadMay(End(run));
  }

  lemma ServerGoes(run: seq<State>, leave: bool, kind: Kind) returns (longer: seq<State>)
    requires IsRun(run, kind) && H.SReady(End(run).k)
    ensures IsRun(longer, kind) && longer[0] == run[0]
    ensures var st := End(run);
            if st.k.s.STop? then End(longer) == st.(k := st.k.(s := if leave then H.SFin else H.SLock))
            else End(longer) == SData(st).(k := H.SStep(st.k, Ok(st), CanRead(st.d.ring)))
  {
    var st' := ServerCan(End(run), leave);
    longer := Extend(run, st', kind);
  }

  /** The main thread has left its loop at once, past the thread's test of should_exit, and waits to join. */
  lemma LeaveAtOnce(st: State, kind: Kind) returns (run: seq<State>)
    requires Init(st)
    ensures IsRun(run, kind) && run[0] == st && End(run).d == st.d
    ensures End(run).k == st.k.(m := H.MJoin, t := H.TLock, h := H.Hand(1, 0, true, false))
  {
    run := ThreadGoes([st], kind);
    run := MainGoes(run, true, kind);
    run := MainGoes(run, true, kind);
    run := MainGoes(run, true, kind);
    run := MainGoes(run, true, kind);
    run := ThreadGoes(run, kind);
  }

  /** The thread writes what the fresh buffer holds, and the server takes it. */
  lemma TakeFresh(st: State, kind: Kind) returns (run: seq<State>)
    requires Init(st) && BufferFits(st)
    ensures IsRun(run, kind) && run[0] == st && End(run).d.sbuf == Outgoing(st.d.buf)
    ensures var k := End(run).k; k.m.MJoin? && k.t.TWait? && k.s.SWork? && !k.r.msgAvail && !k.r.held
  {
    run := LeaveAtOnce(st, kind);
    SameStart(run, kind);
    assert EncodeAll([]) == [] && Wrote(End(run));
    run := ThreadGoes(run, kind);
    assert End(run).d.ring == [Outgoing(st.d.buf)];
    run := ServerGoes(run, false, kind);
    run := ServerGoes(run, false, kind);
  }

  /** Exactly when the join may wait for ever. */
  lemma JoinHangsExactly(st: State, kind: Kind)
    requires Init(st)
    ensures (exists run: seq<State> :: IsRun(run, kind) && run[0] == st && H.Deadlocked(End(run).k))
            <==> MayDeadlock(st)
  {
    if MayDeadlock(st) {
      var run := TakeFresh(st, kind);
      run := ServerGoes(run, false, kind);
      run := ServerGoes(run, false, kind);
      run := ServerGoes(run, false, kind);
      assert H.Deadlocked(End(run).k);
    }
    forall run: seq<State> | IsRun(run, kind) && run[0] == st && H.Deadlocked(End(run).k) ensures MayDeadlock(st) {
      JoinReturns(run, kind);
    }
  }

  /** A request is written and waited for. */
  lemma Post(st: State, kind: Kind) returns (run: seq<State>)
    requires Init(st)
    ensures IsRun(run, kind) && run[0] == st
    ensures End(run).k == st.k.(m := H.MAwait, t := H.TWait, r := H.Shared(true, true, false, false, 1),
                                x := st.k.x.(turn := true))
  {
    run := MainGoes([st], false, kind);
    run := MainGoes(run, false, kind);
    run := ThreadGoes(run, kind);
    run := ThreadGoes(run, kind);
    assert End(run).k == st.k.(m := H.MAwait, t := H.TLock);
    ThreadOutcome(run, kind);
    run := ThreadGoes(run, kind);
  }

  /** The shutdown answers it. */
  lemma Lure(st: State, kind: Kind) returns (run: seq<State>)
    requires Init(st)
    ensures IsRun(run, kind) && run[0] == st
    ensures End(run).k == H.State(H.MAwait, H.TWoken, H.SDone, 0, H.Hand(0, 0, false, false),
                                  H.Shared(false, true, true, false, 1), H.Aux(false, 0, 1, 0, 0, false, 0))
  {
    run := Post(st, kind);
    run := ServerGoes(run, true, kind);
    run := ServerGoes(run, true, kind);
  }

  /** It happens that an operation counts with nothing answered: from every initial state. */
  lemma UnservedHappens(st: State, kind: Kind) returns (run: seq<State>)
    requires Init(st)
    ensures IsRun(run, kind) && run[0] == st && End(run).k.ops == 1 && End(run).k.x.served == 0
  {
    run := Lure(st, kind);
    ThreadOutcome(run, kind);
    run := ThreadGoes(run, kind);
    run := ThreadGoes(run, kind);
    run := MainGoes(run, false, kind);
    run := MainGoes(run, false, kind);
  }
}
