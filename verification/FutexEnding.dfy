/** How the lock-free echo ends (lfshm_blocking.c:252-382): exactly when the server can still return, and
    exactly when the client counts an operation that nobody echoed. */
module FutexEnding {
  import opened Bytes
  import opened Config
  import opened LockFreeRing
  import opened Messages
  import opened Frames
  import opened FutexControl
  import opened FutexProgress
  import opened FutexEcho
  import opened FutexRuns

  function Last(run: seq<State>): State
    requires run != []
  {
    run[|run| - 1]
  }

  /** The ring operations of the echo are those of the bounded queue both ring forms implement. */
  lemma RingIsQueue(st: State, m: Message)
    ensures CanWrite(st, m) <==> QueueStep(st.size, st.ring, Put(m)).1.ok
    ensures CanRead(st) <==> QueueStep(st.size, st.ring, Get(128 * 1024)).1.ok
  {
  }

  // ---- runs can be continued by any step that is not a choice ----

  lemma ClientMoves(st: State) returns (st': State)
    requires !st.k.c.CTop? && !st.k.c.CAsleep? && !st.k.c.CExit?
    requires st.k.c.CWriting? || st.k.c.CReading? ==> ClientOk(st)
    ensures CNext(st, st') && st'.k == CStep(st.k, true)
  {
    var k' := CStep(st.k, true);
    match st.k.c {
      case CWriting => st' := st.(k := k', ring := st.ring + [Outgoing(st)], sent := st.sent + [Outgoing(st)]);
      case CReading =>
        var m := st.ring[0];
        st' := st.(k := k', cbuf := Laid(st.cbuf, m), csize := |m|, ring := st.ring[1..]);
      case CCount => st' := st.(k := k', bytes := st.bytes + st.csize, got := st.got + [Cut(st.cbuf, st.csize)]);
      case _ => st' := st.(k := k');
    }
  }

  lemma ServerMoves(st: State) returns (st': State)
    requires !st.k.s.STop? && !st.k.s.SAsleep? && !st.k.s.SDone?
    requires st.k.s.SWriting? || st.k.s.SReading? ==> ServerOk(st)
    ensures SNext(st, st') && st'.k == SStep(st.k, true)
  {
    var k' := SStep(st.k, true);
    match st.k.s {
      case SReading => st' := st.(k := k', sbuf := st.ring[0], ring := st.ring[1..]);
      case SWriting => st' := st.(k := k', ring := st.ring + [st.sbuf]);
      case _ => st' := st.(k := k');
    }
  }

  /** Any step a side has in the control skeleton it has in the whole system. */
  lemma Follows(st: State, k': Control) returns (st': State)
    requires Turns(st.k) && Flight(st) && Buffers(st) && Logs(st)
    requires ClientNext(st.k, k', true) || ServerNext(st.k, k', true)
    ensures (CNext(st, st') || SNext(st, st')) && st'.k == k'
  {
    RingOperationsSucceed(st);
    if ClientNext(st.k, k', true) {
      if st.k.c.CTop? && k'.c.CWriting? {
        NewRequestExists(st.cbuf);
        var buf :| NewRequest(st.cbuf, buf);
        st' := st.(k := k', cbuf := buf);
      } else if st.k.c.CTop? {
        st' := st.(k := k');
      } else {
        st' := ClientMoves(st);
      }
    } else if st.k.s.STop? {
      st' := st.(k := k');
    } else {
      st' := ServerMoves(st);
    }
  }

  lemma Go(run: seq<State>, k': Control) returns (longer: seq<State>)
    requires IsRun(run)
    requires ClientNext(Last(run).k, k', true) || ServerNext(Last(run).k, k', true)
    ensures IsRun(longer) && run <= longer && |longer| == |run| + 1 && Last(longer).k == k'
  {
    RunKeeps(run);
    var st' := Follows(Last(run), k');
    longer := Extend(run, st');
  }

  /** Some run goes on from this one to a state where the server has shut down. */
  ghost predicate MayReturn(run: seq<State>) {
    exists longer: seq<State> :: IsRun(longer) && run <= longer && longer != [] && Last(longer).k.s.SDone?
  }

  /** Some run goes on from this one to a state with no step left and the server asleep. */
  ghost predicate MayHang(run: seq<State>) {
    exists longer: seq<State> :: IsRun(longer) && run <= longer && longer != [] && Hung(Last(longer).k)
  }

  predicate Hung(k: Control) {
    Stuck(k) && k.s.SAsleep?
  }

  /** The client has left while the server is anywhere in its wait (line 254). */
  predicate Abandoned(k: Control) {
    k.c.CExit? && SWaiting(k.s)
  }

  /** What relates the last two states of every run, if it does so across control steps. */
  lemma LastStep(run: seq<State>)
    requires IsRun(run) && |run| > 1
    ensures var n := |run| - 1; IsRun(run[..n]) && After(run[n - 1].k, run[n].k)
  {
    var n := |run| - 1;
    FrontIsRun(run, n);
    InvAt(run, n - 1);
    var k, k' := run[n - 1].k, run[n].k;
    ControlFollows(run[n - 1], run[n]);
    if Abandoned(k) { AbandonedStays(k, k'); }
    if Closing(k.s) { ClosingStays(k, k'); }
    LureStep(k, k');
    Progress(k, k');
  }

  /** What a step does not undo, what it costs, and what becomes of the counts in the shutdown. */
  ghost predicate After(k: Control, k': Control) {
    && (Abandoned(k) ==> Abandoned(k') && k'.tally.ops == k.tally.ops)
    && (Closing(k.s) ==> Closing(k'.s))
    && (k'.tally.ops == k.tally.ops ==> Rank(k') < Rank(k))
    && k'.tally.bogus == k.tally.bogus + (if Lures(k, k') then 1 else 0)
    && (Down(k.s) ==> Down(k'.s) && k'.tally.served == k.tally.served)
  }

  // ---- what no step undoes ----

  lemma AbandonedStays(k: Control, k': Control)
    requires ControlInv(k) && Abandoned(k) && (ClientNext(k, k', true) || ServerNext(k, k', true))
    ensures Abandoned(k') && k'.tally.ops == k.tally.ops
  {
  }

  lemma ClosingStays(k: Control, k': Control)
    requires Closing(k.s) && (ClientNext(k, k', true) || ServerNext(k, k', true))
    ensures Closing(k'.s)
  {
  }

  /** Once abandoned, always abandoned, for a bounded number of steps, and then the server sleeps for ever. */
  lemma {:induction false} AbandonedHangs(run: seq<State>, longer: seq<State>)
    requires run != [] && IsRun(longer) && run <= longer && Abandoned(Last(run).k)
    ensures Abandoned(Last(longer).k)
    ensures |longer| - |run| <= Rank(Last(run).k) - Rank(Last(longer).k)
    ensures Stuck(Last(longer).k) <==> Hung(Last(longer).k)
    decreases |longer|
  {
    var n := |longer| - 1;
    if |run| <= n {
      LastStep(longer);
      AbandonedHangs(run, longer[..n]);
    }
  }

  lemma {:induction false} ClosingReturns(run: seq<State>, longer: seq<State>)
    requires run != [] && IsRun(longer) && run <= longer && Closing(Last(run).k.s)
    ensures Closing(Last(longer).k.s)
    decreases |longer|
  {
    var n := |longer| - 1;
    if |run| <= n {
      LastStep(longer);
      ClosingReturns(run, longer[..n]);
    }
  }

  // ---- two ways to go on ----

  /** Towards the server's return: it leaves its loop at the next test of the clock; while it sleeps, the
      client goes on to its next request. */
  function Homeward(k: Control): Control {
    if k.s.SAsleep? then (if k.c.CTop? then k.(c := CWriting) else CStep(k, true))
    else if k.s.STop? then k.(s := SReady)
    else SStep(k, true)
  }

  /** Responses the client has yet to count before its next request. */
  function Before(k: Control): nat {
    if SWaiting(k.s) && !k.b.turn && !k.c.CTop? && !k.c.CWriting? && !k.c.CSet? then 1 else 0
  }

  lemma HomewardStep(k: Control)
    requires ControlInv(k) && !Abandoned(k) && !k.s.SDone?
    ensures var k' := Homeward(k);
            && (ClientNext(k, k', true) || ServerNext(k, k', true)) && !Abandoned(k')
            && (Before(k') < Before(k) || (Before(k') == Before(k) && Rank(k') < Rank(k)))
  {
    StuckOnlyAfterClientExit(k);
    Progress(k, Homeward(k));
  }

  lemma Return(run: seq<State>) returns (longer: seq<State>)
    requires IsRun(run) && !Abandoned(Last(run).k)
    ensures IsRun(longer) && run <= longer && Last(longer).k.s.SDone?
    decreases Before(Last(run).k), Rank(Last(run).k)
  {
    var k := Last(run).k;
    longer := run;
    if !k.s.SDone? {
      RunKeeps(run);
      HomewardStep(k);
      longer := Go(run, Homeward(k));
      longer := Return(longer);
    }
  }

  /** Towards the hang: the client leaves at the next test of the clock, the server never does. */
  function Astray(k: Control): Control {
    if !k.c.CAsleep? && !k.c.CExit? then (if k.c.CTop? then k.(c := CExit) else CStep(k, true))
    else if k.s.STop? then k.(s := STest, sw := k.sw.(calls := 0))
    else SStep(k, true)
  }

  function Leaving(c: Client): nat {
    if c.CTop? || c.CExit? then 0 else 1
  }

  lemma AstrayStep(k: Control)
    requires ControlInv(k) && !Closing(k.s) && !Hung(k)
    ensures var k' := Astray(k);
            && (ClientNext(k, k', true) || ServerNext(k, k', true)) && !Closing(k'.s)
            && (Leaving(k'.c) < Leaving(k.c) || (Leaving(k'.c) == Leaving(k.c) && Rank(k') < Rank(k)))
  {
    StuckOnlyAfterClientExit(k);
    Progress(k, Astray(k));
  }

  lemma Hang(run: seq<State>) returns (longer: seq<State>)
    requires IsRun(run) && !Closing(Last(run).k.s)
    ensures IsRun(longer) && run <= longer && Hung(Last(longer).k)
    decreases Leaving(Last(run).k.c), Rank(Last(run).k)
  {
    var k := Last(run).k;
    longer := run;
    if !Hung(k) {
      RunKeeps(run);
      AstrayStep(k);
      longer := Go(run, Astray(k));
      longer := Hang(longer);
    }
  }

  /** A run can go on exactly if it is not stuck. */
  lemma StopsExactly(run: seq<State>)
    requires IsRun(run)
    ensures (exists st': State :: CNext(Last(run), st') || SNext(Last(run), st')) <==> !Stuck(Last(run).k)
  {
    RunKeeps(run);
    var st := Last(run);
    RingOperationsSucceed(st);
    if !Stuck(st.k) {
      var k' := if st.k.c.CTop? then st.k.(c := CExit)
                else if !st.k.c.CAsleep? && !st.k.c.CExit? then CStep(st.k, true)
                else if st.k.s.STop? then st.k.(s := SReady)
                else SStep(st.k, true);
      var st' := Follows(st, k');
    }
  }

  // ---- when the server returns ----

  /** In every reachable state: the server can still shut down exactly if the client has not left it in its
      wait, and it can still be left asleep for ever exactly if it has not itself left its loop. */
  lemma ServerReturnsExactly(run: seq<State>)
    requires IsRun(run)
    ensures MayReturn(run) <==> !Abandoned(Last(run).k)
    ensures MayHang(run) <==> !Closing(Last(run).k.s)
  {
    if Abandoned(Last(run).k) {
      forall longer: seq<State> | IsRun(longer) && run <= longer ensures !Last(longer).k.s.SDone? {
        AbandonedHangs(run, longer);
      }
    } else {
      var longer := Return(run);
    }
    if Closing(Last(run).k.s) {
      forall longer: seq<State> | IsRun(longer) && run <= longer ensures !Hung(Last(longer).k) {
        ClosingReturns(run, longer);
      }
    } else {
      var longer := Hang(run);
    }
  }

  /** In particular a client that leaves first may leave a waiting server asleep for ever. */
  lemma ClientFirstHangsServer(st: State)
    requires Init(st)
    ensures exists run: seq<State> :: IsRun(run) && run[0] == st && Stuck(Last(run).k) && Last(run).k.s.SAsleep?
  {
    var run := Hang([st]);
  }

  // ---- when an operation counts that nobody echoed ----

  /** The shutdown raises response_available (line 376) over a request no one has taken, whose client has
      passed the ready test. */
  predicate Lures(before: Control, after: Control) {
    before.s.SFinSet? && after.s.SFinInc? && before.b.msgAvail && CWaiting(before.c)
  }

  lemma LureStep(k: Control, k': Control)
    requires Turns(k) && (ClientNext(k, k', true) || ServerNext(k, k', true))
    ensures k'.tally.bogus == k.tally.bogus + (if Lures(k, k') then 1 else 0)
    ensures Down(k.s) ==> Down(k'.s) && k'.tally.served == k.tally.served
  {
  }

  lemma {:induction false} LureCounts(run: seq<State>)
    requires IsRun(run)
    ensures Last(run).k.tally.bogus > 0 <==> exists i :: 0 <= i < |run| - 1 && Lures(run[i].k, run[i + 1].k)
    decreases |run|
  {
    var n := |run| - 1;
    if n > 0 {
      var before := run[..n];
      LastStep(run);
      LureCounts(before);
      assert forall i :: 0 <= i < n ==> before[i] == run[i];
    }
  }

  lemma {:induction false} ShutdownServesNothing(run: seq<State>, i: nat)
    requires IsRun(run) && i < |run| && Down(run[i].k.s)
    ensures Down(Last(run).k.s) && Last(run).k.tally.served == run[i].k.tally.served
    decreases |run|
  {
    var n := |run| - 1;
    if i < n {
      LastStep(run);
      ShutdownServesNothing(run[..n], i);
    }
  }

  lemma EvenWhenLured(k: Control, k': Control)
    requires ControlInv(k) && Lures(k, k')
    ensures k.tally.ops == k.tally.served
  {
  }

  /** At that moment every counted operation has been echoed. */
  lemma LuredEven(run: seq<State>, i: nat)
    requires IsRun(run) && i < |run| - 1 && Lures(run[i].k, run[i + 1].k)
    ensures run[i].k.tally.ops == run[i].k.tally.served == Last(run).k.tally.served
  {
    InvAt(run, i);
    EvenWhenLured(run[i].k, run[i + 1].k);
    ShutdownServesNothing(run, i);
  }

  /** More operations are counted than were echoed exactly if the shutdown lured a waiting client and that
      client has since counted; the excess is one. */
  lemma UnservedExactly(run: seq<State>)
    requires IsRun(run)
    ensures var t := Last(run).k.tally;
            && (t.ops > t.served <==>
                  exists i :: 0 <= i < |run| - 1 && Lures(run[i].k, run[i + 1].k) && run[i].k.tally.ops < t.ops)
            && t.ops <= t.served + 1
  {
    RunKeeps(run);
    LureCounts(run);
    var t := Last(run).k.tally;
    forall i | 0 <= i < |run| - 1 && Lures(run[i].k, run[i + 1].k) ensures run[i].k.tally.ops == t.served {
      LuredEven(run, i);
    }
  }

  /** The client's next n steps, when none of them is a choice or a wait. */
  function Steps(k: Control, n: nat): Control
    decreases n
  {
    if n == 0 then k else Steps(CStep(k, true), n - 1)
  }

  predicate Free(k: Control, n: nat)
    decreases n
  {
    n == 0 || (!k.c.CTop? && !k.c.CAsleep? && !k.c.CExit? && Free(CStep(k, true), n - 1))
  }

  lemma {:induction false} ClientGoes(run: seq<State>, n: nat) returns (longer: seq<State>)
    requires IsRun(run) && Free(Last(run).k, n)
    ensures IsRun(longer) && run <= longer && Last(longer).k == Steps(Last(run).k, n)
    decreases n
  {
    longer := run;
    if n > 0 {
      longer := Go(run, CStep(Last(run).k, true));
      longer := ClientGoes(longer, n - 1);
    }
  }

  /** A request posted and being waited for, and the shutdown's signal over it. */
  lemma Lure(st: State) returns (run: seq<State>)
    requires Init(st)
    ensures IsRun(run) && run[0] == st
    ensures Last(run).k == Control(CTest, SFinInc, Bits(false, true, true, false), Futex(0, 0, 0), Futex(1, 0, 0),
                                   Tally(0, 0, 0, 1))
  {
    run := Go([st], st.k.(c := CWriting));
    var k := Control(CTest, STop, Bits(true, true, false, true), Futex(0, 0, 0), Futex(1, 0, 0), Tally(0, 0, 0, 0));
    assert Steps(Last(run).k, 5) == k;
    run := ClientGoes(run, 5);
    run := Go(run, k.(s := SReady));
    run := Go(run, k.(s := SFinSet, b := k.b.(ready := false)));
    run := Go(run, SStep(Last(run).k, true));
  }

  /** It happens: from every initial state a run counts one operation with nothing echoed. */
  lemma UnservedHappens(st: State) returns (run: seq<State>)
    requires Init(st)
    ensures IsRun(run) && run[0] == st && Last(run).k.tally.ops == 1 && Last(run).k.tally.served == 0
  {
    run := Lure(st);
    run := ClientGoes(run, 4);
  }
}
