/** How the mutex echo ends (shm_blocking.c:207-352): exactly when the server can still return, and exactly
    when the client counts an operation that nobody echoed. */
module MutexEnding {
  import opened LockFreeRing
  import opened Messages
  import opened Frames
  import opened MutexEcho

  function Last(run: seq<State>): State
    requires run != []
  {
    run[|run| - 1]
  }

  /** Some run goes on from this one to a state where the server has shut down. */
  ghost predicate MayReturn(run: seq<State>) {
    exists longer: seq<State> :: IsRun(longer) && run <= longer && longer != [] && Last(longer).k.s.SDone?
  }

  /** Some run goes on from this one to a state that only a spurious wakeup can leave, the server waiting. */
  ghost predicate MayHang(run: seq<State>) {
    exists longer: seq<State> :: IsRun(longer) && run <= longer && longer != [] && Hung(Last(longer).k)
  }

  predicate Hung(k: Control) {
    k.c.CExit? && k.s.SWait?
  }

  predicate InWait(s: Server) {
    s.SLock? || s.SWait? || s.SWoken?
  }

  /** The client has left while the server is anywhere in its wait (lines 221-224). */
  predicate Abandoned(k: Control) {
    k.c.CExit? && InWait(k.s)
  }

  /** The server has left its loop. */
  predicate Closing(s: Server) {
    s.SFin? || s.SDone?
  }

  /** The shutdown takes the lock (line 340) while a request that no one has taken is in the ring. */
  predicate Lures(before: Control, after: Control) {
    before.s.SFin? && after.s.SDone? && before.msgAvail
  }

  /** The ring operations of the echo are those of the bounded queue both ring forms implement. */
  lemma RingIsQueue(st: State, m: Message)
    ensures CanWrite(st, m) <==> QueueStep(st.size, st.ring, Put(m)).1.ok
    ensures CanRead(st.ring) <==> QueueStep(st.size, st.ring, Get(128 * 1024)).1.ok
  {
  }

  // ---- what no step undoes ----

  /** What a step does not undo, what it costs, and what becomes of the counts in the shutdown. */
  ghost predicate After(st: State, st': State) {
    && (Abandoned(st.k) ==> Abandoned(st'.k) && st'.stats.ops == st.stats.ops)
    && (Closing(st.k.s) ==> Closing(st'.k.s))
    && (st'.stats.ops == st.stats.ops ==> 1 + Rank(st') + 2 * st.x.spurious <= Rank(st) + 2 * st'.x.spurious)
    && st'.x.bogus == st.x.bogus + (if Lures(st.k, st'.k) then 1 else 0)
    && (Closing(st.k.s) ==> st'.x.served == st.x.served)
  }

  lemma ClientAfter(st: State, st': State)
    requires Flags(st.k, st.x.turn) && CSteps(st, st')
    ensures After(st, st')
  {
    ClientAdvances(st, st');
  }

  lemma ServerAfter(st: State, st': State)
    requires Flags(st.k, st.x.turn) && SSteps(st, st')
    ensures After(st, st')
  {
    ServerAdvances(st, st');
  }

  lemma StepAfter(st: State, st': State)
    requires Inv(st) && Next(st, st')
    ensures After(st, st')
  {
    if CNext(st, st') {
      ClientSucceeds(st, st');
      ClientAfter(st, st');
    } else if SNext(st, st') {
      ServerSucceeds(st, st');
      ServerAfter(st, st');
    }
  }

  lemma LastStep(run: seq<State>)
    requires IsRun(run) && |run| > 1
    ensures var n := |run| - 1; IsRun(run[..n]) && After(run[n - 1], run[n])
  {
    var n := |run| - 1;
    FrontIsRun(run, n);
    ReachedAt(run, n - 1);
    StepAfter(run[n - 1], run[n]);
  }

  /** Once abandoned, always abandoned; but for spurious wakeups the server soon sleeps for ever. */
  lemma {:induction false} AbandonedHangs(run: seq<State>, longer: seq<State>)
    requires run != [] && IsRun(longer) && run <= longer && Abandoned(Last(run).k)
    ensures var st, st' := Last(run), Last(longer);
            && Abandoned(st'.k) && (Stuck(st'.k) <==> Hung(st'.k))
            && |longer| - |run| <= Rank(st) - Rank(st') + 2 * (st'.x.spurious - st.x.spurious)
    decreases |longer|
  {
    var n := |longer| - 1;
    if |run| <= n {
      LastStep(longer);
      AbandonedHangs(run, longer[..n]);
    }
  }

  lemma {:induction false} ClosingReturns(run: seq<State>, longer: seq<State>)
    requires run != [] && IsRun(longer) && run <= longer && Closing(Last(run).k.s)
    ensures Closing(Last(longer).k.s) && Last(longer).x.served == Last(run).x.served
    decreases |longer|
  {
    var n := |longer| - 1;
    if |run| <= n {
      LastStep(longer);
      ClosingReturns(run, longer[..n]);
    }
  }

  // ---- two ways to go on ----

  /** A client that neither waits nor has left can go on to its next request. */
  lemma ClientCan(st: State) returns (st': State)
    requires Inv(st) && !st.k.c.CWait? && !st.k.c.CExit?
    ensures CNext(st, st') && CSteps(st, st') && (st.k.c.CTop? ==> st'.k.c.CLock?)
  {
    match st.k.c {
      case CTop =>
        NewRequestExists(st.h.cbuf);
        var buf :| NewRequest(st.h.cbuf, buf);
        st' := st.(k := st.k.(c := CLock), h := st.h.(cbuf := buf));
      case CLock => st' := Submit(st);
      case CWoken => st' := if st.k.respAvail then Collect(st) else st.(k := st.k.(c := CWait));
      case CCheck => st' := if Checks(Incoming(st)) then Count(st) else st.(k := st.k.(c := CExit));
    }
    ClientSucceeds(st, st');
  }

  /** A server that neither waits nor is done can go on; at the test of the clock either way. */
  lemma ServerCan(st: State, close: bool) returns (st': State)
    requires Inv(st) && !st.k.s.SWait? && !st.k.s.SDone?
    ensures SNext(st, st') && SSteps(st, st') && (st.k.s.STop? ==> st'.k.s == if close then SFin else SLock)
  {
    match st.k.s {
      case STop => st' := st.(k := st.k.(s := if close then SFin else SLock));
      case SLock => st' := Take(st);
      case SWoken => st' := Take(st);
      case SCheck => st' := if Checks(st.h.sbuf) then st.(k := st.k.(s := SReply)) else st.(k := st.k.(s := STop));
      case SReply => st' := Reply(st);
      case SFin => st' := Finish(st);
    }
    ServerSucceeds(st, st');
  }

  /** Responses the client has yet to count before its next request. */
  function Before(st: State): nat {
    if InWait(st.k.s) && !st.x.turn && (Waiting(st.k.c) || st.k.c.CCheck?) then 1 else 0
  }

  /** Towards the server's return: it leaves its loop at the next test of the clock; while it sleeps, the
      client goes on to its next request. */
  lemma HomewardStep(st: State) returns (st': State)
    requires Inv(st) && !Abandoned(st.k) && !st.k.s.SDone?
    ensures Next(st, st') && !Abandoned(st'.k)
    ensures Before(st') < Before(st) || (Before(st') == Before(st) && Rank(st') < Rank(st))
  {
    if st.k.s.SWait? {
      st' := ClientCan(st);
      ClientAdvances(st, st');
    } else {
      st' := ServerCan(st, true);
      ServerAdvances(st, st');
    }
  }

  lemma Return(run: seq<State>) returns (longer: seq<State>)
    requires IsRun(run) && !Abandoned(Last(run).k)
    ensures IsRun(longer) && run <= longer && Last(longer).k.s.SDone?
    decreases Before(Last(run)), Rank(Last(run))
  {
    longer := run;
    if !Last(run).k.s.SDone? {
      RunKeeps(run);
      var st' := HomewardStep(Last(run));
      longer := Extend(run, st');
      longer := Return(longer);
    }
  }

  function Leaving(c: Client): nat {
    if c.CTop? || c.CExit? then 0 else 1
  }

  /** Towards the hang: the client leaves at the next test of the clock, the server never does. */
  lemma AstrayStep(st: State) returns (st': State)
    requires Inv(st) && !Closing(st.k.s) && !Hung(st.k)
    ensures Next(st, st') && !Closing(st'.k.s)
    ensures Leaving(st'.k.c) < Leaving(st.k.c) || (Leaving(st'.k.c) == Leaving(st.k.c) && Rank(st') < Rank(st))
  {
    if st.k.c.CTop? {
      st' := st.(k := st.k.(c := CExit));
      ClientAdvances(st, st');
    } else if st.k.c.CWait? || st.k.c.CExit? {
      st' := ServerCan(st, false);
      ServerAdvances(st, st');
    } else {
      st' := ClientCan(st);
      ClientAdvances(st, st');
    }
  }

  lemma Hang(run: seq<State>) returns (longer: seq<State>)
    requires IsRun(run) && !Closing(Last(run).k.s)
    ensures IsRun(longer) && run <= longer && Hung(Last(longer).k)
    decreases Leaving(Last(run).k.c), Rank(Last(run))
  {
    longer := run;
    if !Hung(Last(run).k) {
      RunKeeps(run);
      var st' := AstrayStep(Last(run));
      longer := Extend(run, st');
      longer := Hang(longer);
    }
  }

  /** A run can go on, but for spurious wakeups, exactly if it is not stuck. */
  lemma StopsExactly(run: seq<State>)
    requires IsRun(run)
    ensures (exists st': State :: CNext(Last(run), st') || SNext(Last(run), st')) <==> !Stuck(Last(run).k)
  {
    RunKeeps(run);
    var st := Last(run);
    if !st.k.c.CWait? && !st.k.c.CExit? {
      var st' := ClientCan(st);
    } else if !st.k.s.SWait? && !st.k.s.SDone? {
      var st' := ServerCan(st, true);
    }
  }

  // ---- main results ----

  /** In every reachable state: the server can still shut down exactly if the client has not left it in its
      wait, and it can still be left waiting for ever exactly if it has not itself left its loop. */
  lemma ServerReturnsExactly(run: seq<State>)
    requires IsRun(run)
    ensures MayReturn(run) <==> !Abandoned(Last(run).k)
    ensures MayHang(run) <==> !Closing(Last(run).k.s)
  {
    if Abandoned(Last(run).k) {
      forall longer: seq<State> | IsRun(longer) && run <= longer ensures !Last(longer).k.s.SDone? {
        AbandonedHangs(run, longer);
      }
    } else {
      var longer := Return(run);
    }
    if Closing(Last(run).k.s) {
      forall longer: seq<State> | IsRun(longer) && run <= longer ensures !Hung(Last(longer).k) {
        ClosingReturns(run, longer);
      }
    } else {
      var longer := Hang(run);
    }
  }

  lemma {:induction false} LureCounts(run: seq<State>)
    requires IsRun(run)
    ensures Last(run).x.bogus > 0 <==> exists i :: 0 <= i < |run| - 1 && Lures(run[i].k, run[i + 1].k)
    decreases |run|
  {
    var n := |run| - 1;
    if n > 0 {
      var before := run[..n];
      LastStep(run);
      LureCounts(before);
      assert forall i :: 0 <= i < n ==> before[i] == run[i];
    }
  }

  lemma EvenWhenLured(run: seq<State>, i: nat)
    requires IsRun(run) && i < |run| - 1 && Lures(run[i].k, run[i + 1].k)
    ensures run[i].stats.ops == run[i].x.served
  {
    ReachedAt(run, i);
  }

  /** When the shutdown lures the client every counted operation has been answered. */
  lemma LuredEven(run: seq<State>, i: nat)
    requires IsRun(run) && i < |run| - 1 && Lures(run[i].k, run[i + 1].k)
    ensures run[i].stats.ops == run[i].x.served == Last(run).x.served
  {
    FrontIsRun(run, i + 1);
    EvenWhenLured(run, i);
    ClosingReturns(run[..i + 1], run);
  }

  /** More operations are counted than were answered exactly if the shutdown found a request untaken and
      its client has since counted; the excess is one. */
  lemma UnservedExactly(run: seq<State>)
    requires IsRun(run)
    ensures var ops, served := Last(run).stats.ops, Last(run).x.served;
            && (ops > served <==>
                  exists i :: 0 <= i < |run| - 1 && Lures(run[i].k, run[i + 1].k) && run[i].stats.ops < ops)
            && ops <= served + 1
  {
    RunKeeps(run);
    LureCounts(run);
    forall i | 0 <= i < |run| - 1 && Lures(run[i].k, run[i + 1].k) ensures run[i].stats.ops == Last(run).x.served {
      LuredEven(run, i);
    }
  }

  /** A request posted and waited for, and the server about to shut down. */
  lemma Post(st: State) returns (run: seq<State>)
    requires Init(st)
    ensures IsRun(run) && run[0] == st && Last(run).k == Control(CWait, SFin, true, true, false)
    ensures Last(run).stats == st.stats && Last(run).x.served == 0
  {
    run := [st];
    RunKeeps(run);
    var a := ClientCan(st);
    run := Extend(run, a);
    RunKeeps(run);
    var b := ClientCan(a);
    run := Extend(run, b);
    run := Extend(run, b.(k := b.k.(s := SFin)));
  }

  /** It happens: from every initial state a run counts one operation with nothing answered. */
  lemma UnservedHappens(st: State) returns (run: seq<State>)
    requires Init(st)
    ensures IsRun(run) && run[0] == st && Last(run).stats.ops == 1 && Last(run).x.served == 0
  {
    run := Post(st);
    RunKeeps(run);
    var c := ServerCan(Last(run), true);
    run := Extend(run, c);
    RunKeeps(run);
    var d := ClientCan(c);
    run := Extend(run, d);
    RunKeeps(run);
    var e := ClientCan(d);
    run := Extend(run, e);
  }
}
