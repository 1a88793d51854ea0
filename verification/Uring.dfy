/** The client that waits through io_uring (lfshm_nonblocking.c:60-111, 355-445). Its wait takes more steps
    than the blocking one; forgetting them gives a run of the blocking echo. System calls succeed. */
module Uring {
  import opened Bytes
  import opened Config
  import opened Messages
  import opened FutexControl
  import opened FutexProgress
  import opened FutexEcho
  import FutexRuns

  /** Where the client is inside the wait's inner block; in Code, where the blocking program says. */
  datatype Stage = Code | Prep | Submit | WaitCqe | Seen

  datatype Completion = Woken | Again  // cqe->res: 0 or -EAGAIN

  /** In stages other than Code the client's program counter in st is out of use. queued: the kernel holds
      the futex wait request. submitted and seen count requests and completions marked seen. */
  datatype UState = UState(st: State, stage: Stage, queued: bool, cqes: seq<Completion>, submitted: nat, seen: nat)

  ghost predicate UInit(x: UState) {
    Init(x.st) && x.stage.Code? && !x.queued && x.cqes == [] && x.submitted == x.seen == 0
  }

  /** Outside the inner block the two programs are the same. */
  ghost predicate CodeNext(x: UState, x': UState) {
    && x.stage.Code?
    && if x.st.k.c.CRecheck? && !x.st.k.b.respAvail then x' == x.(stage := Prep)
       else CNext(x.st, x'.st) && x' == x.(st := x'.st)
  }

  function Bumped(st: State): State {
    st.(k := st.k.(cw := st.k.cw.(calls := st.k.cw.calls + 1)))
  }

  /** Preparing the request, submitting it (the kernel compares and either queues it or completes it at
      once), waiting for the completion, marking it seen. */
  ghost predicate InnerNext(x: UState, x': UState) {
    match x.stage
    case Code => false
    case Prep => x' == x.(stage := Submit)
    case Submit =>
      var matches := U32(x.st.k.cw.incs) == U32(x.st.k.cw.val);
      x' == x.(st := Bumped(x.st), stage := WaitCqe, queued := matches,
               cqes := if matches then x.cqes else x.cqes + [Again], submitted := x.submitted + 1)
    case WaitCqe => x.cqes != [] && x' == x.(stage := Seen)
    case Seen =>
      x' == x.(st := x.st.(k := x.st.k.(c := CTest)), stage := Code,
               cqes := if x.cqes == [] then [] else x.cqes[1..], seen := x.seen + 1)
  }

  /** The server's program is unchanged; a wake completes a queued request. */
  ghost predicate UServerNext(x: UState, x': UState) {
    && SNext(x.st, x'.st)
    && x' == if (x.st.k.s.SWake? || x.st.k.s.SFinWake?) && x.queued
             then x.(st := x'.st, queued := false, cqes := x.cqes + [Woken])
             else x.(st := x'.st)
  }

  ghost predicate UNext(x: UState, x': UState) {
    CodeNext(x, x') || InnerNext(x, x') || UServerNext(x, x')
  }

  ghost predicate IsURun(run: seq<UState>) {
    && |run| > 0 && UInit(run[0])
    && forall i :: 0 <= i < |run| - 1 ==> UNext(run[i], run[i + 1])
  }

  // ---- the blocking state a state stands for ----

  function AbsPc(x: UState): Client {
    match x.stage
    case Code => x.st.k.c
    case Prep => CWait
    case Submit => CWait
    case WaitCqe => if x.queued then CAsleep else CTest
    case Seen => CTest
  }

  function Abs(x: UState): State {
    x.st.(k := x.st.k.(c := AbsPc(x)))
  }

  /** At most one request is ever in flight, and its completion is marked seen exactly once. */
  ghost predicate UInv(x: UState) {
    && !x.st.k.c.CWait? && !x.st.k.c.CAsleep?
    && (!x.stage.Code? ==> x.st.k.c.CRecheck?)
    && x.submitted == x.seen + (if x.stage.WaitCqe? || x.stage.Seen? then 1 else 0)
    && |x.cqes| == (if (x.stage.WaitCqe? && !x.queued) || x.stage.Seen? then 1 else 0)
    && (x.queued ==> x.stage.WaitCqe?)
  }

  lemma CodeAvoidsFutex(k: Control, k': Control, ok: bool)
    requires ClientNext(k, k', ok) && !k.c.CWait? && !(k.c.CRecheck? && !k.b.respAvail)
    ensures !k'.c.CWait? && !k'.c.CAsleep?
  {
  }

  lemma UInvKept(x: UState, x': UState)
    requires UInv(x) && UNext(x, x')
    ensures UInv(x')
  {
    if InnerNext(x, x') {
    } else if UServerNext(x, x') {
      ServerQuiet(x.st, x'.st);
    } else if x.stage == x'.stage {
      CodeAvoidsFutex(x.st.k, x'.st.k, ClientOk(x.st));
    }
  }

  lemma CodeSimulates(x: UState, x': UState)
    requires UInv(x) && CodeNext(x, x')
    ensures CNext(Abs(x), Abs(x'))
  {
  }

  lemma InnerSimulates(x: UState, x': UState)
    requires UInv(x) && InnerNext(x, x') && |x.st.cbuf| == MAX_MSG_SIZE
    ensures if x.stage.Submit? then CNext(Abs(x), Abs(x')) else Abs(x') == Abs(x)
  {
  }

  predicate Wakes(s: Server) {
    s.SWake? || s.SFinWake?
  }

  /** But for its wakes, the server's step depends only on whether the client waits. */
  lemma ServerIgnoresClient(k: Control, k': Control, ok: bool, c: Client)
    requires ServerNext(k, k', ok) && !Wakes(k.s) && CWaiting(c) == CWaiting(k.c)
    ensures k'.c == k.c && ServerNext(k.(c := c), k'.(c := c), ok)
  {
  }

  lemma WakeSimulates(x: UState, x': UState)
    requires UInv(x) && UServerNext(x, x') && Wakes(x.st.k.s)
    ensures SNext(Abs(x), Abs(x'))
  {
  }

  lemma ServerSimulates(x: UState, x': UState)
    requires UInv(x) && UServerNext(x, x')
    ensures SNext(Abs(x), Abs(x'))
  {
    if Wakes(x.st.k.s) {
      WakeSimulates(x, x');
    } else {
      ServerIgnoresClient(x.st.k, x'.st.k, ServerOk(x.st), AbsPc(x));
      assert ServerOk(Abs(x)) == ServerOk(x.st);
      assert Abs(x').k == x'.st.k.(c := AbsPc(x));
    }
  }

  /** Each step is one of the blocking echo, or none that shows there. */
  lemma Simulates(x: UState, x': UState)
    requires UInv(x) && Inv(Abs(x)) && UNext(x, x')
    ensures CNext(Abs(x), Abs(x')) || SNext(Abs(x), Abs(x')) || Abs(x') == Abs(x)
  {
    if CodeNext(x, x') {
      CodeSimulates(x, x');
    } else if InnerNext(x, x') {
      InnerSimulates(x, x');
    } else {
      ServerSimulates(x, x');
    }
  }

  // ---- runs ----

  /** Steps the inner block takes that the blocking program does not. */
  function Extra(x: UState): nat {
    if x.stage.Prep? || x.stage.Seen? then 1 else if x.stage.WaitCqe? && !x.queued then 2 else 0
  }

  function URank(x: UState): nat {
    4 * Rank(x.st.k.(c := AbsPc(x))) + Extra(x)
  }

  lemma UStepCost(x: UState, x': UState)
    requires UInv(x) && Inv(Abs(x)) && UNext(x, x')
    ensures UInv(x') && Inv(Abs(x'))
    ensures 1 + URank(x') + 3964 * x.st.k.tally.ops <= URank(x) + 3964 * x'.st.k.tally.ops
  {
    UInvKept(x, x');
    if CodeNext(x, x') {
      CodeSimulates(x, x');
    } else if InnerNext(x, x') {
      InnerSimulates(x, x');
    } else {
      ServerSimulates(x, x');
    }
    if CNext(Abs(x), Abs(x')) || SNext(Abs(x), Abs(x')) {
      FutexRuns.StepCost(Abs(x), Abs(x'));
    }
  }

  lemma {:induction false} URunKeeps(run: seq<UState>)
    requires IsURun(run)
    ensures var x := run[|run| - 1];
            UInv(x) && Inv(Abs(x)) && |run| - 1 + URank(x) <= 3960 + 3964 * x.st.k.tally.ops
    decreases |run|
  {
    var n := |run| - 1;
    if n == 0 {
      InitHolds(run[0].st);
      assert Abs(run[0]) == run[0].st;
    } else {
      URunKeeps(run[..n]);
      UStepCost(run[n - 1], run[n]);
    }
  }

  lemma FollowStep(blocking: seq<State>, x: UState, x': UState) returns (longer: seq<State>)
    requires UInv(x) && Inv(Abs(x)) && UNext(x, x')
    requires FutexEcho.IsRun(blocking) && blocking[|blocking| - 1] == Abs(x)
    ensures FutexEcho.IsRun(longer) && |longer| <= |blocking| + 1 && longer[|longer| - 1] == Abs(x')
  {
    Simulates(x, x');
    longer := blocking;
    if Abs(x') != Abs(x) {
      longer := FutexRuns.Extend(blocking, Abs(x'));
    }
  }

  /** Every run is a run of the blocking echo that takes no more steps, so all that holds there holds here. */
  lemma {:induction false} Refines(run: seq<UState>) returns (blocking: seq<State>)
    requires IsURun(run)
    ensures FutexEcho.IsRun(blocking) && 0 < |blocking| <= |run|
    ensures blocking[|blocking| - 1] == Abs(run[|run| - 1])
    decreases |run|
  {
    var n := |run| - 1;
    if n == 0 {
      assert Abs(run[0]) == run[0].st;
      blocking := [run[0].st];
    } else {
      var before := run[..n];
      URunKeeps(before);
      blocking := Refines(before);
      blocking := FollowStep(blocking, run[n - 1], run[n]);
    }
  }

  /** In io_uring_wait_cqe with nothing to collect. */
  predicate Blocked(x: UState) {
    x.stage.WaitCqe? && x.cqes == []
  }

  /** The wait ends only with its condition true. At every point of every run at most one request is in
      flight and every earlier completion has been marked seen once; a client blocked with its condition
      true has the server's signal still to come; it is never blocked while the server has no step left;
      and operations keep completing. */
  lemma UringInherits(run: seq<UState>)
    requires IsURun(run)
    ensures var x := run[|run| - 1];
            var k := x.st.k;
            && (x.stage.Code? && k.c.CReading? ==> k.b.respAvail)
            && x.seen <= x.submitted <= x.seen + 1 && |x.cqes| <= 1
            && (Blocked(x) && k.b.respAvail ==> k.s.SInc? || k.s.SWake? || k.s.SFinInc? || k.s.SFinWake?)
            && (Blocked(x) ==> !k.s.SAsleep? && !k.s.SDone?)
            && |run| <= 3964 * (k.tally.ops + 1)
  {
    URunKeeps(run);
    StuckOnlyAfterClientExit(Abs(run[|run| - 1]).k);
  }
}
