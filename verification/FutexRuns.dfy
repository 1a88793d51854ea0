/** What holds in every run of the lock-free echo (lfshm_blocking.c), from the state setup leaves and under
    every interleaving, including the server's shutdown. */
module FutexRuns {
  import opened Bytes
  import opened Config
  import opened Frames
  import opened RingLayout
  import opened Messages
  import opened FutexControl
  import opened FutexProgress
  import opened FutexEcho

  predicate ClientInRing(c: Client) {
    c.CWriting? || c.CReading?
  }

  predicate ServerInRing(s: Server) {
    s.SReading? || s.SWriting?
  }

  /** What holds of every state of a run, n steps from its start. (The trigger keeps the induction short.) */
  ghost predicate Reached(st: State, n: nat) {
    forall k {:trigger Rank(k)} :: k == st.k ==> Inv(st) && n + Rank(k) <= 990 + 991 * k.tally.ops
  }

  /** A step costs one unit of rank, unless it counts an operation. */
  lemma StepCost(st: State, st': State)
    requires Inv(st) && (CNext(st, st') || SNext(st, st'))
    ensures Inv(st')
    ensures 1 + Rank(st'.k) + 991 * st.k.tally.ops <= Rank(st.k) + 991 * st'.k.tally.ops
  {
    Keeps(st, st');
    ControlFollows(st, st');
    Progress(st.k, st'.k);
  }

  /** Every front of a run is a run, followed by a step. */
  lemma FrontIsRun(run: seq<State>, n: nat)
    requires IsRun(run) && 0 < n <= |run|
    ensures IsRun(run[..n]) && (n < |run| ==> StepAt(run, n - 1))
  {
    forall i | 0 <= i < n - 1 ensures StepAt(run[..n], i) {
      assert StepAt(run, i);
    }
  }

  lemma StartReached(run: seq<State>)
    requires IsRun(run)
    ensures Reached(run[0], 0)
  {
    InitHolds(run[0]);
  }

  lemma StepReaches(run: seq<State>, i: nat)
    requires IsRun(run) && i < |run| - 1 && Reached(run[i], i)
    ensures Reached(run[i + 1], i + 1)
  {
    assert StepAt(run, i);
    assert Rank(run[i].k) >= 0;
    StepCost(run[i], run[i + 1]);
  }

  lemma {:induction false} ReachedAt(run: seq<State>, i: nat)
    requires IsRun(run) && i < |run|
    ensures Reached(run[i], i)
  {
    if i == 0 {
      StartReached(run);
    } else {
      ReachedAt(run, i - 1);
      StepReaches(run, i - 1);
    }
  }

  lemma RunKeeps(run: seq<State>)
    requires IsRun(run)
    ensures var st := run[|run| - 1];
            Inv(st) && |run| - 1 + Rank(st.k) <= 990 + 991 * st.k.tally.ops
  {
    ReachedAt(run, |run| - 1);
    assert Rank(run[|run| - 1].k) >= 0;
  }

  lemma InvAt(run: seq<State>, i: nat)
    requires IsRun(run) && i < |run|
    ensures Inv(run[i])
  {
    ReachedAt(run, i);
    assert Rank(run[i].k) >= 0;
  }

  /** A run and one more step. */
  lemma Extend(run: seq<State>, st: State) returns (longer: seq<State>)
    requires IsRun(run) && (CNext(run[|run| - 1], st) || SNext(run[|run| - 1], st))
    ensures IsRun(longer) && longer == run + [st]
  {
    longer := run + [st];
    forall i | 0 <= i < |run| ensures StepAt(longer, i) {
      if i < |run| - 1 {
        assert StepAt(run, i);
      }
    }
  }

  /** With no lock, client and server are never both inside a ring operation, a wait ends with its
      condition true, the ring never holds more than one message, and no ring operation ever fails. */
  lemma ExclusiveWithoutLock(run: seq<State>)
    requires IsRun(run)
    ensures var st := run[|run| - 1];
            && !(ClientInRing(st.k.c) && ServerInRing(st.k.s))
            && (st.k.c.CReading? ==> st.k.b.respAvail) && (st.k.s.SReading? ==> st.k.b.msgAvail)
            && |st.ring| <= 1
            && (ClientInRing(st.k.c) ==> ClientOk(st))
            && (ServerInRing(st.k.s) ==> ServerOk(st))
  {
    RunKeeps(run);
    RingOperationsSucceed(run[|run| - 1]);
  }

  function Is(b: bool): nat {
    if b then 1 else 0
  }

  /** Each signal of either side, the shutdown's two included, has incremented its futex once; posted counts
      the requests written. */
  ghost predicate Signals(k: Control, posted: nat) {
    && k.cw.incs + Is(k.s.SSet? || k.s.SInc?)
       == k.tally.served + Is(k.s.SFinWake? || k.s.SOwnSet? || k.s.SOwnInc? || k.s.SOwnWake? || k.s.SDone?)
    && k.sw.incs + Is(k.c.CSet? || k.c.CInc?) == posted + Is(k.s.SOwnWake? || k.s.SDone?)
  }

  lemma ClientSignals(k: Control, k': Control, posted: nat)
    requires Signals(k, posted) && ClientNext(k, k', true)
    ensures Signals(k', posted + Is(k.c.CWriting?))
  {
  }

  lemma ServerSignals(k: Control, k': Control, posted: nat)
    requires Signals(k, posted) && ServerNext(k, k', true)
    ensures Signals(k', posted)
  {
  }

  lemma SignalStep(run: seq<State>, i: nat)
    requires IsRun(run) && i < |run| - 1 && Signals(run[i].k, |run[i].sent|)
    ensures Signals(run[i + 1].k, |run[i + 1].sent|)
  {
    var st, st' := run[i], run[i + 1];
    InvAt(run, i);
    assert StepAt(run, i);
    if CNext(st, st') {
      ClientSucceeds(st, st');
      ClientSignals(st.k, st'.k, |st.sent|);
    } else {
      RingOperationsSucceed(st);
      ServerSignals(st.k, st'.k, |st.sent|);
      ServerQuiet(st, st');
    }
  }

  lemma {:induction false} SignalsCounted(run: seq<State>, i: nat)
    requires IsRun(run) && i < |run|
    ensures Signals(run[i].k, |run[i].sent|)
  {
    if i > 0 {
      SignalsCounted(run, i - 1);
      SignalStep(run, i - 1);
    }
  }

  /** No wakeup is lost: whoever sleeps with its condition true has the other side's increment or wake
      still to come. Hence a run can only stop once the client has left its loop. */
  lemma NoLostWakeup(run: seq<State>)
    requires IsRun(run)
    ensures var k := run[|run| - 1].k;
            && (k.c.CAsleep? && k.b.respAvail ==> k.s.SInc? || k.s.SWake? || k.s.SFinInc? || k.s.SFinWake?)
            && (k.s.SAsleep? && k.b.msgAvail ==> k.c.CInc? || k.c.CWake?)
            && (Stuck(k) <==> k.c.CExit? && (k.s.SAsleep? || k.s.SDone?))
  {
    RunKeeps(run);
    StuckOnlyAfterClientExit(run[|run| - 1].k);
  }

  /** Every operation completes within a fixed number of steps of both sides together. */
  lemma BoundedRounds(run: seq<State>)
    requires IsRun(run)
    ensures |run| <= 991 * (run[|run| - 1].k.tally.ops + 1)
  {
    RunKeeps(run);
  }

  /** The futex_wait calls the client makes between states i and j. */
  function ClientCalls(run: seq<State>, i: nat, j: nat): nat
    requires i <= j < |run|
    decreases j
  {
    if i == j then 0
    else ClientCalls(run, i, j - 1) + (if run[j - 1].k.c.CWait? && !run[j].k.c.CWait? then 1 else 0)
  }

  function ServerCalls(run: seq<State>, i: nat, j: nat): nat
    requires i <= j < |run|
    decreases j
  {
    if i == j then 0
    else ServerCalls(run, i, j - 1) + (if run[j - 1].k.s.SWait? && !run[j].k.s.SWait? then 1 else 0)
  }

  /** From its ready test on, the client is in its wait up to state j. */
  ghost predicate ClientWaitsFrom(run: seq<State>, i: nat, j: nat) {
    i < j < |run| && run[i].k.c.CReady? && forall k :: i < k <= j ==> CWaiting(run[k].k.c)
  }

  /** From the top of its loop on, the server is in its wait up to state j. */
  ghost predicate ServerWaitsFrom(run: seq<State>, i: nat, j: nat) {
    i < j < |run| && run[i].k.s.STop? && forall k :: i < k <= j ==> SWaiting(run[k].k.s)
  }

  lemma CallStep(k: Control, k': Control)
    requires ClientNext(k, k', true) || ServerNext(k, k', true)
    ensures CWaiting(k'.c) && k.c.CReady? ==> k'.cw.calls == 0
    ensures CWaiting(k'.c) && CWaiting(k.c) ==>
              k'.cw.calls == k.cw.calls + (if k.c.CWait? && !k'.c.CWait? then 1 else 0)
    ensures SWaiting(k'.s) && k.s.STop? ==> k'.sw.calls == 0
    ensures SWaiting(k'.s) && SWaiting(k.s) ==>
              k'.sw.calls == k.sw.calls + (if k.s.SWait? && !k'.s.SWait? then 1 else 0)
  {
  }

  lemma RunCallStep(run: seq<State>, i: nat)
    requires IsRun(run) && i < |run| - 1
    ensures ClientNext(run[i].k, run[i + 1].k, true) || ServerNext(run[i].k, run[i + 1].k, true)
  {
    InvAt(run, i);
    assert StepAt(run, i);
    ControlFollows(run[i], run[i + 1]);
  }

  lemma {:induction false} ClientCallsCounted(run: seq<State>, i: nat, j: nat)
    requires IsRun(run) && ClientWaitsFrom(run, i, j)
    ensures ClientCalls(run, i, j) == run[j].k.cw.calls
    decreases j
  {
    if i < j - 1 { ClientCallsCounted(run, i, j - 1); }
    RunCallStep(run, j - 1);
    CallStep(run[j - 1].k, run[j].k);
  }

  lemma {:induction false} ServerCallsCounted(run: seq<State>, i: nat, j: nat)
    requires IsRun(run) && ServerWaitsFrom(run, i, j)
    ensures ServerCalls(run, i, j) == run[j].k.sw.calls
    decreases j
  {
    if i < j - 1 { ServerCallsCounted(run, i, j - 1); }
    RunCallStep(run, j - 1);
    CallStep(run[j - 1].k, run[j].k);
  }

  /** Between entering a wait and any later point of it, at most three futex_wait calls are made. */
  lemma AtMostThreeCalls(run: seq<State>, i: nat, j: nat)
    requires IsRun(run) && i < j < |run|
    ensures ClientWaitsFrom(run, i, j) ==> ClientCalls(run, i, j) <= 3
    ensures ServerWaitsFrom(run, i, j) ==> ServerCalls(run, i, j) <= 3
  {
    InvAt(run, j);
    if ClientWaitsFrom(run, i, j) { ClientCallsCounted(run, i, j); }
    if ServerWaitsFrom(run, i, j) { ServerCallsCounted(run, i, j); }
  }

  /** Between loading a futex word and the kernel's comparison at most two increments fall, one more once
      the shutdown signals; so equal 32-bit words mean nothing happened in between. */
  lemma WordNeverStale(run: seq<State>)
    requires IsRun(run)
    ensures var k := run[|run| - 1].k;
            && (k.c.CWait? ==> 0 <= k.cw.incs - k.cw.val <= (if Released(k.s) then 3 else 2)
                               && (U32(k.cw.incs) == U32(k.cw.val) <==> k.cw.incs == k.cw.val))
            && (k.s.SWait? ==> 0 <= k.sw.incs - k.sw.val <= 2
                               && (U32(k.sw.incs) == U32(k.sw.val) <==> k.sw.incs == k.sw.val))
  {
    RunKeeps(run);
    var k := run[|run| - 1].k;
    if k.c.CWait? { NoStaleMatch(k.cw.incs, k.cw.val); }
    if k.s.SWait? { NoStaleMatch(k.sw.incs, k.sw.val); }
  }

  /** The k-th counted response is the k-th request, byte for byte, valid and numbered k modulo 2^32; the
      statistics are those of the responses; and no more operations are counted than echoes were written,
      but for one that the shutdown may add. */
  lemma EndToEnd(run: seq<State>)
    requires IsRun(run)
    ensures var st := run[|run| - 1];
            var t := st.k.tally;
            && |st.got| == t.ops <= |st.sent| <= t.ops + 1 && st.got == st.sent[..t.ops]
            && (forall i :: 0 <= i < t.ops ==> Numbered(st.got[i], i + 1) && Checks(st.got[i]))
            && st.bytes == Total(st.got)
            && t.latencies == (if t.ops < MAX_LATENCIES then t.ops else MAX_LATENCIES)
            && t.ops <= t.served + (if Released(st.k.s) then 1 else 0)
  {
    RunKeeps(run);
    var st := run[|run| - 1];
    assert st.got <= st.sent;
    forall i | 0 <= i < |st.got| ensures Numbered(st.got[i], i + 1) && Checks(st.got[i]) {
      assert st.got[i] == st.sent[i] && st.sent[i] in st.sent;
    }
  }

  /** After the shutdown no client sleeps for ever: asleep, it has its wake still to come, and once the
      server is done the client goes on by itself. */
  lemma ShutdownReleasesClient(run: seq<State>)
    requires IsRun(run)
    ensures var k := run[|run| - 1].k;
            && (Released(k.s) && k.c.CAsleep? ==> k.s.SFinInc? || k.s.SFinWake?)
            && (Released(k.s) && CWaiting(k.c) ==> k.b.respAvail)
            && (k.s.SDone? ==> !k.c.CAsleep? && !k.b.ready && k.b.msgAvail)
  {
    RunKeeps(run);
  }
}
