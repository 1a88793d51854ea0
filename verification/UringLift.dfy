/** The io_uring wait can do whatever the blocking wait can (lfshm_nonblocking.c:60-111): it stops nowhere
    else, and every run of the blocking echo is one of it. */
module UringLift {
  import opened Bytes
  import opened Config
  import opened Messages
  import opened FutexControl
  import opened FutexProgress
  import opened FutexEcho
  import opened Uring
  import FutexRuns
  import FutexEnding

  function Last(run: seq<UState>): UState
    requires run != []
  {
    run[|run| - 1]
  }

  lemma UExtend(run: seq<UState>, x: UState) returns (longer: seq<UState>)
    requires IsURun(run) && UNext(Last(run), x)
    ensures IsURun(longer) && longer == run + [x]
  {
    longer := run + [x];
    forall i | 0 <= i < |run| ensures UNext(longer[i], longer[i + 1]) {
      if i < |run| - 1 {
        assert longer[i] == run[i] && longer[i + 1] == run[i + 1];
      }
    }
  }

  // ---- steps ----

  lemma CodeMoves(x: UState) returns (x': UState)
    requires UInv(x) && Inv(Abs(x)) && x.stage.Code? && !x.st.k.c.CExit?
    ensures CodeNext(x, x')
  {
    assert Abs(x) == x.st;
    RingOperationsSucceed(x.st);
    if x.st.k.c.CRecheck? && !x.st.k.b.respAvail {
      x' := x.(stage := Prep);
    } else if x.st.k.c.CTop? {
      x' := x.(st := x.st.(k := x.st.k.(c := CExit)));
    } else {
      var st' := FutexEnding.ClientMoves(x.st);
      x' := x.(st := st');
    }
  }

  lemma InnerMoves(x: UState) returns (x': UState)
    requires UInv(x) && !x.stage.Code? && !Blocked(x)
    ensures InnerNext(x, x')
  {
    match x.stage {
      case Prep => x' := x.(stage := Submit);
      case Submit =>
        var matches := U32(x.st.k.cw.incs) == U32(x.st.k.cw.val);
        x' := x.(st := Bumped(x.st), stage := WaitCqe, queued := matches,
                 cqes := if matches then x.cqes else x.cqes + [Again], submitted := x.submitted + 1);
      case WaitCqe => x' := x.(stage := Seen);
      case Seen =>
        x' := x.(st := x.st.(k := x.st.k.(c := CTest)), stage := Code,
                 cqes := if x.cqes == [] then [] else x.cqes[1..], seen := x.seen + 1);
    }
  }

  /** A server step of the blocking echo, from the state x stands for. */
  lemma LiftServer(x: UState, st': State) returns (x': UState)
    requires UInv(x) && SNext(Abs(x), st')
    ensures UServerNext(x, x') && Abs(x') == st'
  {
    var k, k' := x.st.k, st'.k;
    if Wakes(k.s) {
      x' := LiftWake(x, st');
    } else {
      ServerIgnoresClient(Abs(x).k, k', ServerOk(Abs(x)), k.c);
      assert ServerOk(Abs(x)) == ServerOk(x.st);
      assert Abs(x).k.(c := k.c) == k;
      x' := x.(st := st'.(k := k'.(c := k.c)));
    }
  }

  lemma LiftWake(x: UState, st': State) returns (x': UState)
    requires UInv(x) && SNext(Abs(x), st') && Wakes(x.st.k.s)
    ensures UServerNext(x, x') && Abs(x') == st'
  {
    var st1 := x.st.(k := SStep(x.st.k, true));
    x' := if x.queued then x.(st := st1, queued := false, cqes := x.cqes + [Woken]) else x.(st := st1);
  }

  /** A client step of the blocking echo while the uring client is outside the inner block. */
  lemma LiftCode(x: UState, st': State) returns (x': UState)
    requires UInv(x) && x.stage.Code? && CNext(Abs(x), st')
    ensures CodeNext(x, x') && Abs(x') == st'
  {
    assert Abs(x) == x.st;
    x' := if x.st.k.c.CRecheck? && !x.st.k.b.respAvail then x.(stage := Prep) else x.(st := st');
  }

  /** Its futex wait: preparing and submitting the request. */
  lemma LiftSubmit(x: UState, st': State) returns (x': UState)
    requires UInv(x) && x.stage.Submit? && CNext(Abs(x), st')
    ensures InnerNext(x, x') && Abs(x') == st'
  {
    x' := InnerMoves(x);
  }

  // ---- no other place to stop ----

  predicate Left(x: UState) {
    x.stage.Code? && x.st.k.c.CExit?
  }

  /** In every reachable state the client has a step unless it has left or waits for a completion that is
      not there. */
  lemma ClientStopsExactly(run: seq<UState>)
    requires IsURun(run)
    ensures var x := Last(run);
            (exists x': UState :: CodeNext(x, x') || InnerNext(x, x')) <==> !Left(x) && !Blocked(x)
  {
    URunKeeps(run);
    var x := Last(run);
    if !Left(x) && !Blocked(x) {
      if x.stage.Code? {
        var x' := CodeMoves(x);
      } else {
        var x' := InnerMoves(x);
      }
    }
  }

  lemma ServerStopsExactly(run: seq<UState>)
    requires IsURun(run)
    ensures var x := Last(run);
            (exists x': UState :: UServerNext(x, x')) <==> !x.st.k.s.SAsleep? && !x.st.k.s.SDone?
  {
    URunKeeps(run);
    var x := Last(run);
    if !x.st.k.s.SAsleep? && !x.st.k.s.SDone? {
      RingOperationsSucceed(Abs(x));
      assert ServerOk(Abs(x)) == ServerOk(x.st);
      if x.st.k.s.STop? {
        var st' := Abs(x).(k := Abs(x).k.(s := SReady));
        var x' := LiftServer(x, st');
      } else {
        var st' := FutexEnding.ServerMoves(Abs(x));
        var x' := LiftServer(x, st');
      }
    }
  }

  /** Neither side has a step left exactly if the client has left and the server sleeps or is done. */
  lemma StopsExactly(run: seq<UState>)
    requires IsURun(run)
    ensures var x := Last(run);
            (exists x': UState :: UNext(x, x')) <==> !(Left(x) && (x.st.k.s.SAsleep? || x.st.k.s.SDone?))
  {
    ClientStopsExactly(run);
    ServerStopsExactly(run);
    UringInherits(run);
    var x := Last(run);
    if x' :| CodeNext(x, x') || InnerNext(x, x') {
      assert UNext(x, x');
    } else if x' :| UServerNext(x, x') {
      assert UNext(x, x');
    }
  }

  // ---- every blocking run ----

  /** Finishing the inner block once its completion is there: nothing of it shows. */
  lemma Finish(run: seq<UState>) returns (longer: seq<UState>)
    requires IsURun(run) && (Last(run).stage.Seen? || (Last(run).stage.WaitCqe? && !Blocked(Last(run))))
    ensures IsURun(longer) && run <= longer && Last(longer).stage.Code? && Abs(Last(longer)) == Abs(Last(run))
    decreases if Last(run).stage.Seen? then 0 else 1
  {
    URunKeeps(run);
    var x := Last(run);
    var x' := InnerMoves(x);
    InnerSimulates(x, x');
    longer := UExtend(run, x');
    if x.stage.WaitCqe? {
      longer := Finish(longer);
    }
  }

  lemma Prepare(run: seq<UState>) returns (longer: seq<UState>)
    requires IsURun(run) && Last(run).stage.Prep?
    ensures IsURun(longer) && run <= longer && Last(longer).stage.Submit? && Abs(Last(longer)) == Abs(Last(run))
  {
    URunKeeps(run);
    var x' := InnerMoves(Last(run));
    longer := UExtend(run, x');
  }

  /** Up to where the next step shows. */
  lemma GetReady(run: seq<UState>, st': State) returns (longer: seq<UState>)
    requires IsURun(run) && CNext(Abs(Last(run)), st')
    ensures IsURun(longer) && run <= longer && (Last(longer).stage.Code? || Last(longer).stage.Submit?)
    ensures Abs(Last(longer)) == Abs(Last(run))
  {
    var x := Last(run);
    longer := run;
    if x.stage.Prep? {
      longer := Prepare(run);
    } else if x.stage.WaitCqe? || x.stage.Seen? {
      Blocks(run);
      longer := Finish(run);
    }
  }

  /** A blocked client stands for one asleep, which has no step. */
  lemma Blocks(run: seq<UState>)
    requires IsURun(run)
    ensures Blocked(Last(run)) ==> Abs(Last(run)).k.c.CAsleep?
  {
    URunKeeps(run);
  }

  lemma LiftShown(run: seq<UState>, st': State) returns (longer: seq<UState>)
    requires IsURun(run) && CNext(Abs(Last(run)), st') && (Last(run).stage.Code? || Last(run).stage.Submit?)
    ensures IsURun(longer) && run <= longer && Abs(Last(longer)) == st'
  {
    URunKeeps(run);
    var x' := Last(run);
    if x'.stage.Submit? {
      x' := LiftSubmit(x', st');
    } else {
      x' := LiftCode(x', st');
    }
    longer := UExtend(run, x');
  }

  lemma LiftClient(run: seq<UState>, st': State) returns (longer: seq<UState>)
    requires IsURun(run) && CNext(Abs(Last(run)), st')
    ensures IsURun(longer) && run <= longer && Abs(Last(longer)) == st'
  {
    longer := GetReady(run, st');
    longer := LiftShown(longer, st');
  }

  lemma LiftStep(run: seq<UState>, st': State) returns (longer: seq<UState>)
    requires IsURun(run) && (CNext(Abs(Last(run)), st') || SNext(Abs(Last(run)), st'))
    ensures IsURun(longer) && run <= longer && Abs(Last(longer)) == st'
  {
    if CNext(Abs(Last(run)), st') {
      longer := LiftClient(run, st');
    } else {
      URunKeeps(run);
      var x' := LiftServer(Last(run), st');
      longer := UExtend(run, x');
    }
  }

  /** Wherever a uring run stands for the end of a blocking run, it can follow every continuation of it. */
  lemma {:induction false} Lifts(run: seq<UState>, blocking: seq<State>, further: seq<State>)
    returns (longer: seq<UState>)
    requires IsURun(run) && blocking != [] && FutexEcho.IsRun(further) && blocking <= further
    requires Abs(Last(run)) == blocking[|blocking| - 1]
    ensures IsURun(longer) && run <= longer && Abs(Last(longer)) == further[|further| - 1]
    decreases |further|
  {
    var n := |further| - 1;
    if |blocking| == |further| {
      longer := run;
    } else {
      FutexRuns.FrontIsRun(further, n);
      longer := Lifts(run, blocking, further[..n]);
      longer := LiftStep(longer, further[n]);
    }
  }

  /** So every run of the blocking echo is one of the io_uring echo. */
  lemma LiftsRun(blocking: seq<State>) returns (run: seq<UState>)
    requires FutexEcho.IsRun(blocking)
    ensures IsURun(run) && Abs(Last(run)) == blocking[|blocking| - 1]
  {
    var x := UState(blocking[0], Code, false, [], 0, 0);
    assert Abs(x) == blocking[0];
    run := Lifts([x], blocking[..1], blocking);
  }
}
