/** What holds in every run of the three-party echo (shm_nonblocking.c:217-427), and how it ends: when the
    join returns, when the server can, and when an operation counts that nobody answered. */
module HandoffRuns {
  import opened Bytes
  import opened Config
  import opened Frames
  import opened RingLayout
  import opened Messages
  import opened Interrupts
  import opened HandoffEcho
  import H = Handoff

  ghost predicate StepAt(run: seq<State>, i: int, kind: Kind)
    requires 0 <= i < |run| - 1
  {
    Next(run[i], run[i + 1], kind)
  }

  ghost predicate IsRun(run: seq<State>, kind: Kind) {
    && |run| > 0 && Init(run[0])
    && forall i {:trigger StepAt(run, i, kind)} :: 0 <= i < |run| - 1 ==> StepAt(run, i, kind)
  }

  function End(run: seq<State>): State
    requires run != []
  {
    run[|run| - 1]
  }

  /** What holds of every state of a run, n steps from its start. */
  ghost predicate Reached(st: State, n: nat) {
    Inv(st) && n + H.Rank(st.k) <= 182 + 183 * st.k.ops + 2 * st.k.x.spurious
  }

  lemma StartReached(run: seq<State>, kind: Kind)
    requires IsRun(run, kind)
    ensures Reached(run[0], 0)
  {
    InitHolds(run[0]);
  }

  lemma StepReaches(run: seq<State>, i: nat, kind: Kind)
    requires IsRun(run, kind) && i < |run| - 1 && Reached(run[i], i)
    ensures Reached(run[i + 1], i + 1)
  {
    assert StepAt(run, i, kind);
    Keeps(run[i], run[i + 1], kind);
    ControlFollows(run[i], run[i + 1], kind);
    H.StepCost(run[i].k, run[i + 1].k, kind);
  }

  lemma {:induction false} ReachedAt(run: seq<State>, i: nat, kind: Kind)
    requires IsRun(run, kind) && i < |run|
    ensures Reached(run[i], i)
  {
    if i == 0 {
      StartReached(run, kind);
    } else {
      ReachedAt(run, i - 1, kind);
      StepReaches(run, i - 1, kind);
    }
  }

  lemma RunKeeps(run: seq<State>, kind: Kind)
    requires IsRun(run, kind)
    ensures Reached(End(run), |run| - 1)
  {
    ReachedAt(run, |run| - 1, kind);
  }

  /** Every front of a run is a run, followed by a step. */
  lemma FrontIsRun(run: seq<State>, n: nat, kind: Kind)
    requires IsRun(run, kind) && 0 < n < |run|
    ensures IsRun(run[..n], kind) && StepAt(run, n - 1, kind)
  {
    forall i | 0 <= i < n - 1 ensures StepAt(run[..n], i, kind) {
      assert StepAt(run, i, kind);
    }
  }

  /** A run and one more step. */
  lemma Extend(run: seq<State>, st: State, kind: Kind) returns (longer: seq<State>)
    requires IsRun(run, kind) && Next(End(run), st, kind)
    ensures IsRun(longer, kind) && longer == run + [st]
  {
    longer := run + [st];
    forall i | 0 <= i < |run| ensures StepAt(longer, i, kind) {
      if i < |run| - 1 {
        assert StepAt(run, i, kind);
      }
    }
  }

  // ---- safety ----

  /** The message buffer has one owner at a time, no interrupt that is ever waited on holds more than one
      signal, the ring holds at most one message, and every operation on it succeeds, as does every
      validation of a message the main thread built. */
  lemma OneOwner(run: seq<State>, kind: Kind)
    requires IsRun(run, kind)
    ensures var st := End(run);
            var k := st.k;
            && !(H.MainOwns(k.m) && H.ThreadOwns(k.t))
            && k.h.writeIntr <= 1 && (H.InLoop(k.m) ==> k.h.readIntr <= 1)
            && |st.d.ring| <= 1
            && (k.t.TLock? && !k.h.shouldExit ==> Wrote(st))
            && (k.t.TWoken? && k.r.respAvail && !k.x.dropped ==> CanRead(st.d.ring))
            && (Reads(k) && k.r.ready ==> CanRead(st.d.ring))
            && (k.s.SWork? && k.x.late == 0 ==> Checks(st.d.sbuf))
            && (k.s.SReply? ==> CanWrite(st, st.d.sbuf))
            && (k.m.MCheck? && k.h.readSuccess ==> Checks(Cut(st.d.buf, st.d.msgSize)))
  {
    RunKeeps(run, kind);
    var st := End(run);
    assert EncodeAll([]) == [];
    if st.k.s.SWork? && st.k.x.late == 0 { CurrentChecks(st); }
    if st.k.m.MCheck? && st.k.h.readSuccess { CurrentChecks(st); }
  }

  /** The k-th counted response is the k-th request, byte for byte, valid, and numbered k after whatever the
      fresh buffer held; the statistics are those of the responses. */
  lemma EndToEnd(run: seq<State>, kind: Kind)
    requires IsRun(run, kind)
    ensures var st := End(run);
            var n, l := st.k.ops, st.l;
            && |l.first| == MAX_MSG_SIZE && |l.got| == n <= |l.sent| && l.got == l.sent[..n]
            && (forall i :: 0 <= i < n ==> Numbered(l.got[i], Word(l.first, 8) + i + 1) && Checks(l.got[i]))
            && st.stats.bytes == Total(l.got)
            && st.stats.latencies == (if n < MAX_LATENCIES then n else MAX_LATENCIES)
  {
    RunKeeps(run, kind);
    var l := End(run).l;
    assert forall i :: 0 <= i < |l.got| ==> l.got[i] == l.sent[i];
  }

  /** Where no waited-on interrupt holds two signals, one kind's step is the other's. */
  lemma SameStep(st: State, st': State, kind: Kind, other: Kind)
    requires H.Token(st.k) && Next(st, st', kind)
    ensures Next(st, st', other)
  {
    if MNext(st, st', kind) {
      assert H.MNext(st.k, st'.k, other);
      assert MNext(st, st', other);
    } else if TNext(st, st', kind) {
      assert H.TStep(st.k, kind, Wrote(st), Got(st)) == H.TStep(st.k, other, Wrote(st), Got(st));
      assert TNext(st, st', other);
    }
  }

  lemma {:induction false} KindDoesNotMatter(run: seq<State>, kind: Kind, other: Kind)
    requires IsRun(run, kind)
    ensures IsRun(run, other)
  {
    forall i | 0 <= i < |run| - 1 ensures StepAt(run, i, other) {
      assert StepAt(run, i, kind);
      ReachedAt(run, i, kind);
      SameStep(run[i], run[i + 1], kind, other);
    }
  }

  /** Coalescing and counting interrupts give exactly the same runs. */
  lemma EventFdIsPipe(run: seq<State>)
    ensures IsRun(run, EventFd) <==> IsRun(run, Pipe)
  {
    if IsRun(run, EventFd) { KindDoesNotMatter(run, EventFd, Pipe); }
    if IsRun(run, Pipe) { KindDoesNotMatter(run, Pipe, EventFd); }
  }
}
