/** Calls of the lock-free ring return (lfshm_blocking.c:120-236): at every point of every interleaving each
    side can finish its call by itself, in a bounded number of steps, with the queue's answer. */
module ConcurrentProgress {
  import opened Bytes
  import opened Frames
  import opened RingLayout
  import opened LockFreeRing
  import opened ConcurrentRing

  function End(run: seq<State>): State
    requires run != []
  {
    run[|run| - 1]
  }

  lemma Extend(run: seq<State>, s: State) returns (longer: seq<State>)
    requires IsRun(run) && (WStep(End(run), s) || RStep(End(run), s))
    ensures IsRun(longer) && longer == run + [s]
  {
    longer := run + [s];
    forall k | 0 <= k < |run| ensures StepAt(longer, k) {
      if k < |run| - 1 {
        assert StepAt(run, k);
      }
    }
  }

  // ---- bytes still to copy ----

  /** How many of 0..n-1 are not in done. */
  function Missing(n: nat, done: set<nat>): (k: nat)
    ensures k <= n
  {
    if n == 0 then 0 else Missing(n - 1, done) + (if n - 1 in done then 0 else 1)
  }

  lemma {:induction false} MissingOne(n: nat, done: set<nat>) returns (i: nat)
    requires Missing(n, done) > 0
    ensures i < n && i !in done
  {
    if n - 1 in done {
      i := MissingOne(n - 1, done);
    } else {
      i := n - 1;
    }
  }

  lemma {:induction false} MissingNone(n: nat, done: set<nat>, i: nat)
    requires Missing(n, done) == 0 && i < n
    ensures i in done
  {
    if i < n - 1 {
      MissingNone(n - 1, done, i);
    }
  }

  lemma {:induction false} MissingLess(n: nat, done: set<nat>, i: nat)
    ensures Missing(n, done + {i}) == Missing(n, done) - (if i < n && i !in done then 1 else 0)
  {
    if n > 0 {
      MissingLess(n - 1, done, i);
    }
  }

  // ---- the reader ----

  predicate Reading(r: Reader) {
    !r.RIdle? && !r.RReturn?
  }

  /** Steps of its own the reader has left at most, not counting repeated copies of a byte. */
  function RLeft(s: State): nat {
    match s.r
    case RLoadRead(max) => |s.ring| + 9
    case RLoadWrite(max, rp) => |s.ring| + 8
    case RHeader(max, rp, head) => |s.ring| + 3 + Missing(4, head.Keys)
    case RData(max, p, len, got) => 1 + Missing(len, got.Keys)
    case _ => 0
  }

  lemma HeaderAdvances(s: State) returns (s': State)
    requires Shape(s) && s.r.RHeader?
    ensures RStep(s, s') && RLeft(s') < RLeft(s)
    ensures !s'.r.RIdle? && s'.r.max == s.r.max
  {
    var head := s.r.head;
    if Missing(4, head.Keys) > 0 {
      var i := MissingOne(4, head.Keys);
      var head' := head[i := Peek(s.ring, Address(|s.ring|, s.r.rp, s.r.rp + 4, i))];
      s' := s.(r := s.r.(head := head'));
      assert RHeaderByte(s, s', i);
      assert head'.Keys == head.Keys + {i};
      MissingLess(4, head.Keys, i);
    } else {
      MissingNone(4, head.Keys, 0);
      MissingNone(4, head.Keys, 1);
      MissingNone(4, head.Keys, 2);
      MissingNone(4, head.Keys, 3);
      var len := FromLe32([head[0], head[1], head[2], head[3]]);
      if len > s.r.max {
        s' := s.(r := RReturn(s.r.max, false, []), hist := s.hist + [TooLong(s.r.max)]);
      } else {
        s' := s.(r := RData(s.r.max, ConcurrentRing.Next(|s.ring|, s.r.rp, 4, s.r.rp + 4), len, map[]));
      }
      assert RLength(s, s');
      RLengthKeeps(s, s');
      ShortFrame(s');
    }
  }

  /** A message in the ring is shorter than the ring. */
  lemma ShortFrame(s: State)
    requires Shape(s)
    ensures s.r.RData? ==> s.r.len <= |s.ring|
  {
  }

  lemma DataAdvances(s: State) returns (s': State)
    requires Shape(s) && s.r.RData?
    ensures RStep(s, s') && RLeft(s') < RLeft(s)
    ensures !s'.r.RIdle? && s'.r.max == s.r.max
  {
    var got, len := s.r.got, s.r.len;
    if Missing(len, got.Keys) > 0 {
      var i := MissingOne(len, got.Keys);
      var got' := got[i := Peek(s.ring, Address(|s.ring|, s.r.p, U32(s.r.p + len), i))];
      s' := s.(r := s.r.(got := got'));
      assert RDataByte(s, s', i);
      assert got'.Keys == got.Keys + {i};
      MissingLess(len, got.Keys, i);
    } else {
      forall i: nat | i < len ensures i in got {
        MissingNone(len, got.Keys, i);
      }
      var m := Gathered(len, got);
      s' := s.(readPos := ConcurrentRing.Next(|s.ring|, s.r.p, len, U32(s.r.p + len)), r := RReturn(s.r.max, true, m),
               queue := if s.queue == [] then [] else s.queue[1..], hist := s.hist + [Dequeue(s.r.max, m)]);
      assert RStore(s, s');
    }
  }

  /** In every state a reader in a call has a step that brings it nearer to its return. */
  lemma ReaderAdvances(s: State) returns (s': State)
    requires Shape(s) && Reading(s.r)
    ensures RStep(s, s') && RLeft(s') < RLeft(s)
    ensures !s'.r.RIdle? && s'.r.max == s.r.max
  {
    match s.r {
      case RLoadRead(max) =>
        s' := s.(r := RLoadWrite(max, s.readPos));
        assert RLoad(s, s');
      case RLoadWrite(max, rp) =>
        if rp == s.writePos {
          s' := s.(r := RReturn(max, false, []), hist := s.hist + [Empty(max)]);
        } else {
          s' := s.(r := RHeader(max, rp, map[]));
        }
        assert RCheck(s, s');
      case RHeader(max, rp, head) => s' := HeaderAdvances(s);
      case RData(max, p, len, got) => s' := DataAdvances(s);
    }
  }

  lemma OtherSideStays(s: State, s': State)
    ensures WStep(s, s') ==> s'.r == s.r && |s'.ring| == |s.ring|
    ensures RStep(s, s') ==> s'.w == s.w && s'.ring == s.ring && s'.writePos == s.writePos && s'.wret == s.wret
  {
  }

  lemma CopiesOnly(s: State, s': State, i: nat)
    requires RHeaderByte(s, s', i) || RDataByte(s, s', i)
    ensures RLeft(s') <= RLeft(s)
  {
    if s.r.RHeader? {
      assert s'.r.head.Keys == s.r.head.Keys + {i};
      MissingLess(4, s.r.head.Keys, i);
    } else {
      assert s'.r.got.Keys == s.r.got.Keys + {i};
      MissingLess(s.r.len, s.r.got.Keys, i);
    }
  }

  lemma ReaderNeverFallsBack(s: State, s': State)
    requires Shape(s) && RStep(s, s') && Reading(s.r)
    ensures RLeft(s') <= RLeft(s)
  {
    if i :| RHeaderByte(s, s', i) || RDataByte(s, s', i) {
      CopiesOnly(s, s', i);
    } else if RLength(s, s') {
      RLengthKeeps(s, s');
      ShortFrame(s');
    }
  }

  // ---- the writer ----

  predicate Writing(w: Writer) {
    !w.WIdle? && !w.WReturn?
  }

  function WLeft(s: State): nat {
    match s.w
    case WLoadRead(m) => |m| + 7
    case WLoadWrite(m, rp, seen) => |m| + 6
    case WCopy(m, wp, body, done) => 1 + Missing(4 + |m|, done)
    case _ => 0
  }

  lemma CopyAdvances(s: State) returns (s': State)
    requires Shape(s) && s.w.WCopy?
    ensures WStep(s, s') && WLeft(s') < WLeft(s)
    ensures !s'.w.WIdle? && s'.w.m == s.w.m
  {
    var m, done := s.w.m, s.w.done;
    if Missing(4 + |m|, done) > 0 {
      var i := MissingOne(4 + |m|, done);
      s' := s.(ring := Poke(s.ring, FrameAddress(|s.ring|, s.w.wp, s.w.body, m, i), FrameByte(m, i)),
               w := s.w.(done := done + {i}));
      assert WByte(s, s', i);
      MissingLess(4 + |m|, done, i);
    } else {
      forall i: nat | i < 4 + |m| ensures i in done {
        MissingNone(4 + |m|, done, i);
      }
      s' := s.(writePos := ConcurrentRing.Next(|s.ring|, s.w.body, |m|, s.w.body + |m|), w := WReturn(m, true),
               queue := s.queue + [m], hist := s.hist + [Enqueue(m)]);
      assert WStore(s, s');
    }
  }

  /** In every state a writer in a call has a step that brings it nearer to its return. */
  lemma WriterAdvances(s: State) returns (s': State)
    requires Shape(s) && Writing(s.w)
    ensures WStep(s, s') && WLeft(s') < WLeft(s)
    ensures !s'.w.WIdle? && s'.w.m == s.w.m
  {
    match s.w {
      case WLoadRead(m) =>
        var used := |EncodeAll(s.queue)|;
        s' := s.(w := WLoadWrite(m, s.readPos, used),
                 hist := if Fits(|s.ring|, used, |m|) then s.hist else s.hist + [Full(m)]);
        assert WLoad(s, s');
      case WLoadWrite(m, rp, seen) =>
        s' := s.(w := if Available(|s.ring|, rp, s.writePos) <= |m| + 4 + 1 then WReturn(m, false)
                      else WCopy(m, s.writePos, ConcurrentRing.Next(|s.ring|, s.writePos, 4, s.writePos + 4), {}));
        assert WCheck(s, s');
      case WCopy(m, wp, body, done) => s' := CopyAdvances(s);
    }
  }

  lemma WriterNeverFallsBack(s: State, s': State)
    requires WStep(s, s') && Writing(s.w)
    ensures WLeft(s') <= WLeft(s)
  {
    if i :| WByte(s, s', i) {
      MissingLess(4 + |s.w.m|, s.w.done, i);
    }
  }

  // ---- calls return ----

  lemma ReadGoesOn(run: seq<State>) returns (longer: seq<State>)
    requires IsRun(run) && Reading(End(run).r)
    ensures IsRun(longer) && run <= longer && |longer| == |run| + 1
    ensures var s, s' := End(run), End(longer);
            && RLeft(s') < RLeft(s) && RAlone(s.queue, s') && s'.r.max == s.r.max
            && s'.w == s.w && |s'.ring| == |s.ring|
  {
    var s := End(run);
    RunKeeps(run, |run| - 1);
    var s' := ReaderAdvances(s);
    OtherSideStays(s, s');
    InCall(s);
    ReaderSteps(s.queue, s, s');
    longer := Extend(run, s');
  }

  lemma InCall(s: State)
    requires Shape(s) && Reading(s.r)
    ensures RAlone(s.queue, s)
  {
  }

  /** Reaching the return by steps of the reader alone, with the answer a queue gives that nobody touches. */
  lemma ReadReturns(run: seq<State>) returns (longer: seq<State>)
    requires IsRun(run) && Reading(End(run).r)
    ensures IsRun(longer) && run <= longer && |longer| <= |run| + RLeft(End(run)) <= |run| + |End(run).ring| + 9
    ensures End(longer).r.RReturn? && End(longer).r.max == End(run).r.max && End(longer).w == End(run).w
    ensures var q, r := End(run).queue, End(longer).r;
            && (r.ok <==> q != [] && |q[0]| <= r.max) && r.m == (if r.ok then q[0] else [])
            && End(longer).queue == if r.ok then q[1..] else q
    decreases RLeft(End(run))
  {
    longer := ReadGoesOn(run);
    RShort(run);
    if Reading(End(longer).r) {
      longer := ReadReturns(longer);
    }
  }

  lemma RShort(run: seq<State>)
    requires IsRun(run)
    ensures RLeft(End(run)) <= |End(run).ring| + 9
  {
    RunKeeps(run, |run| - 1);
    ShortFrame(End(run));
  }

  lemma WriteGoesOn(run: seq<State>) returns (longer: seq<State>)
    requires IsRun(run) && Writing(End(run).w)
    ensures IsRun(longer) && run <= longer && |longer| == |run| + 1
    ensures var s, s' := End(run), End(longer);
            && WLeft(s') < WLeft(s) && !s'.w.WIdle? && s'.w.m == s.w.m && s'.r == s.r && |s'.ring| == |s.ring|
            && forall q :: WAlone(q, s) ==> WAlone(q, s')
  {
    var s := End(run);
    RunKeeps(run, |run| - 1);
    var s' := WriterAdvances(s);
    OtherSideStays(s, s');
    forall q | WAlone(q, s) ensures WAlone(q, s') {
      WriterSteps(q, s, s');
    }
    longer := Extend(run, s');
  }

  /** Reaching the return by steps of the writer alone, with the answer decided so far. */
  lemma WriteReturns(run: seq<State>) returns (longer: seq<State>)
    requires IsRun(run) && Writing(End(run).w)
    ensures IsRun(longer) && run <= longer && |longer| <= |run| + WLeft(End(run)) <= |run| + |End(run).w.m| + 7
    ensures End(longer).w.WReturn? && End(longer).w.m == End(run).w.m && End(longer).r == End(run).r
    ensures |End(longer).ring| == |End(run).ring| && forall q :: WAlone(q, End(run)) ==> WAlone(q, End(longer))
    decreases WLeft(End(run))
  {
    longer := WriteGoesOn(run);
    if Writing(End(longer).w) {
      longer := WriteReturns(longer);
    }
  }

  /** Every read is answered: from any point where the reader is idle, a call with any limit can return, by
      its own steps, exactly what a queue answers. */
  lemma EveryReadAnswered(run: seq<State>, max: nat) returns (longer: seq<State>)
    requires IsRun(run) && End(run).r.RIdle?
    ensures IsRun(longer) && run <= longer && |longer| <= |run| + |End(run).ring| + 10
    ensures var q, s := End(run).queue, End(longer);
            && s.r == RReturn(max, q != [] && |q[0]| <= max, if q != [] && |q[0]| <= max then q[0] else [])
            && s.queue == (if q != [] && |q[0]| <= max then q[1..] else q) && s.w == End(run).w
  {
    var s := End(run);
    var s' := s.(r := RLoadRead(max));
    assert RCall(s, s', max);
    longer := Extend(run, s');
    longer := ReadReturns(longer);
  }

  /** Every write is answered: likewise for any message. */
  lemma EveryWriteAnswered(run: seq<State>, m: Message) returns (longer: seq<State>)
    requires IsRun(run) && End(run).w.WIdle?
    ensures IsRun(longer) && run <= longer && |longer| <= |run| + |m| + 8
    ensures var size, q, s := |End(run).ring|, End(run).queue, End(longer);
            var ok := |m| <= size / 2 && |EncodeAll(q)| + |m| + 4 <= size - 2;
            s.w == WReturn(m, ok) && s.queue == (if ok then q + [m] else q) && s.r == End(run).r
  {
    var s := End(run);
    var s' := if |m| > |s.ring| / 2 then s.(w := WReturn(m, false), hist := s.hist + [Full(m)])
              else s.(w := WLoadRead(m));
    assert WCall(s, s', m);
    longer := Extend(run, s');
    if Writing(s'.w) {
      longer := WriteReturns(longer);
      assert WAlone(s.queue, End(longer));
    }
  }
}
