/** The lock-free ring with one writer and one reader interleaved (lfshm_blocking.c:120-236). A step is
    one load of a position, one copied byte, or one store of a position. The bytes of a copy go in any
    order and may repeat, as memcpy allows. Memory is sequentially consistent. */
module ConcurrentRing {
  import opened Bytes
  import opened Frames
  import opened RingLayout
  import opened LockFreeRing

  // ---- the code's arithmetic ----

  /** Line 188-192: free space as the writer computes it from the positions it loaded. */
  function Available(size: nat, rp: nat, wp: nat): int {
    if wp >= rp then size - U32(wp - rp) else U32(rp - wp)
  }

  /** Where byte i of a two-part copy of n bytes at p goes; `sum` is the code's p + n. */
  function Address(size: nat, p: nat, sum: nat, i: nat): int {
    if sum > size then (if i < size - p then p + i else i - (size - p)) else p + i
  }

  function Next(size: nat, p: nat, n: nat, sum: nat): nat {
    var q := U32(if sum > size then n - (size - p) else p + n);
    if sum <= size && q == size then 0 else q
  }

  /** Byte i of a frame in the writer's copies: four length bytes, then the payload. */
  function FrameByte(m: Message, i: nat): byte
    requires i < 4 + |m|
  {
    if i < 4 then Le32(U32(|m|))[i] else m[i - 4]
  }

  /** Where it goes: the length at wp, the payload at p. */
  function FrameAddress(size: nat, wp: nat, p: nat, m: Message, i: nat): int {
    if i < 4 then Address(size, wp, wp + 4, i) else Address(size, p, p + |m|, i - 4)
  }

  function Poke(ring: seq<byte>, a: int, b: byte): seq<byte> {
    if 0 <= a < |ring| then ring[a := b] else ring
  }

  function Peek(ring: seq<byte>, a: int): byte {
    if 0 <= a < |ring| then ring[a] else 0
  }

  // ---- states and steps ----

  /** Linearization points of the calls, as they happen. */
  datatype Label =
    | Enqueue(m: Message) | Full(m: Message)
    | Dequeue(max: nat, m: Message) | Empty(max: nat) | TooLong(max: nat)
  /** What the calls return to their callers. */
  datatype Result = Wrote(m: Message, ok: bool) | Got(max: nat, ok: bool, m: Message)

  datatype Writer =
    | WIdle
    | WLoadRead(m: Message)
    | WLoadWrite(m: Message, rp: nat, seen: nat)  // seen: bytes in use when rp was loaded (auxiliary)
    | WCopy(m: Message, wp: nat, body: nat, done: set<nat>)
    | WReturn(m: Message, ok: bool)

  datatype Reader =
    | RIdle
    | RLoadRead(max: nat)
    | RLoadWrite(max: nat, rp: nat)
    | RHeader(max: nat, rp: nat, head: map<nat, byte>)
    | RData(max: nat, p: nat, len: nat, got: map<nat, byte>)
    | RReturn(max: nat, ok: bool, m: Message)

  /** queue, hist, wret and rret are auxiliary: no step of the code depends on them. */
  datatype State = State(ring: seq<byte>, readPos: nat, writePos: nat, w: Writer, r: Reader,
                         queue: seq<Message>, hist: seq<Label>, wret: seq<Result>, rret: seq<Result>)

  ghost predicate Init(s: State) {
    && Fits32(|s.ring|) && s.readPos == s.writePos == 0 && s.w == WIdle && s.r == RIdle
    && s.queue == [] && s.hist == [] && s.wret == [] && s.rret == []
  }

  ghost predicate WCall(s: State, s': State, m: Message) {
    && s.w.WIdle?
    && s' == if |m| > |s.ring| / 2 then s.(w := WReturn(m, false), hist := s.hist + [Full(m)])
             else s.(w := WLoadRead(m))
  }

  ghost predicate WLoad(s: State, s': State) {
    && s.w.WLoadRead?
    && var used := |EncodeAll(s.queue)|;
       s' == s.(w := WLoadWrite(s.w.m, s.readPos, used),
                hist := if Fits(|s.ring|, used, |s.w.m|) then s.hist else s.hist + [Full(s.w.m)])
  }

  ghost predicate WCheck(s: State, s': State) {
    && s.w.WLoadWrite?
    && s' == s.(w := if Available(|s.ring|, s.w.rp, s.writePos) <= |s.w.m| + 4 + 1 then WReturn(s.w.m, false)
                     else WCopy(s.w.m, s.writePos, Next(|s.ring|, s.writePos, 4, s.writePos + 4), {}))
  }

  ghost predicate WByte(s: State, s': State, i: nat) {
    && s.w.WCopy? && i < 4 + |s.w.m|
    && s' == s.(ring := Poke(s.ring, FrameAddress(|s.ring|, s.w.wp, s.w.body, s.w.m, i), FrameByte(s.w.m, i)),
                w := s.w.(done := s.w.done + {i}))
  }

  ghost predicate WStore(s: State, s': State) {
    && s.w.WCopy? && (forall i: nat :: i < 4 + |s.w.m| ==> i in s.w.done)
    && s' == s.(writePos := Next(|s.ring|, s.w.body, |s.w.m|, s.w.body + |s.w.m|), w := WReturn(s.w.m, true),
                queue := s.queue + [s.w.m], hist := s.hist + [Enqueue(s.w.m)])
  }

  ghost predicate WDone(s: State, s': State) {
    s.w.WReturn? && s' == s.(w := WIdle, wret := s.wret + [Wrote(s.w.m, s.w.ok)])
  }

  ghost predicate RCall(s: State, s': State, max: nat) {
    s.r.RIdle? && s' == s.(r := RLoadRead(max))
  }

  ghost predicate RLoad(s: State, s': State) {
    s.r.RLoadRead? && s' == s.(r := RLoadWrite(s.r.max, s.readPos))
  }

  ghost predicate RCheck(s: State, s': State) {
    && s.r.RLoadWrite?
    && s' == if s.r.rp == s.writePos then s.(r := RReturn(s.r.max, false, []), hist := s.hist + [Empty(s.r.max)])
             else s.(r := RHeader(s.r.max, s.r.rp, map[]))
  }

  ghost predicate RHeaderByte(s: State, s': State, i: nat) {
    && s.r.RHeader? && i < 4
    && s' == s.(r := s.r.(head := s.r.head[i := Peek(s.ring, Address(|s.ring|, s.r.rp, s.r.rp + 4, i))]))
  }

  ghost predicate RLength(s: State, s': State) {
    && s.r.RHeader? && 0 in s.r.head && 1 in s.r.head && 2 in s.r.head && 3 in s.r.head
    && var len := FromLe32([s.r.head[0], s.r.head[1], s.r.head[2], s.r.head[3]]);
       s' == if len > s.r.max then s.(r := RReturn(s.r.max, false, []), hist := s.hist + [TooLong(s.r.max)])
             else s.(r := RData(s.r.max, Next(|s.ring|, s.r.rp, 4, s.r.rp + 4), len, map[]))
  }

  ghost predicate RDataByte(s: State, s': State, i: nat) {
    && s.r.RData? && i < s.r.len
    && s' == s.(r := s.r.(got := s.r.got[i := Peek(s.ring, Address(|s.ring|, s.r.p, U32(s.r.p + s.r.len), i))]))
  }

  /** The bytes copied, in order. */
  function Gathered(len: nat, got: map<nat, byte>): (m: Message)
    requires forall i: nat :: i < len ==> i in got
    ensures |m| == len && forall i: nat :: i < len ==> m[i] == got[i]
  {
    seq(len, (i: nat) requires i < len => got[i])
  }

  ghost predicate RStore(s: State, s': State) {
    && s.r.RData? && (forall i: nat :: i < s.r.len ==> i in s.r.got)
    && var m := Gathered(s.r.len, s.r.got);
       s' == s.(readPos := Next(|s.ring|, s.r.p, s.r.len, U32(s.r.p + s.r.len)), r := RReturn(s.r.max, true, m),
                queue := if s.queue == [] then [] else s.queue[1..], hist := s.hist + [Dequeue(s.r.max, m)])
  }

  ghost predicate RDone(s: State, s': State) {
    s.r.RReturn? && s' == s.(r := RIdle, rret := s.rret + [Got(s.r.max, s.r.ok, s.r.m)])
  }

  ghost predicate WStep(s: State, s': State) {
    || (exists m :: WCall(s, s', m)) || WLoad(s, s') || WCheck(s, s')
    || (exists i :: WByte(s, s', i)) || WStore(s, s') || WDone(s, s')
  }

  ghost predicate RStep(s: State, s': State) {
    || (exists max :: RCall(s, s', max)) || RLoad(s, s') || RCheck(s, s')
    || (exists i :: RHeaderByte(s, s', i)) || RLength(s, s')
    || (exists i :: RDataByte(s, s', i)) || RStore(s, s') || RDone(s, s')
  }

  ghost predicate StepAt(run: seq<State>, k: int)
    requires 0 <= k < |run| - 1
  {
    WStep(run[k], run[k + 1]) || RStep(run[k], run[k + 1])
  }

  ghost predicate IsRun(run: seq<State>) {
    && |run| > 0 && Init(run[0])
    && forall k {:trigger StepAt(run, k)} :: 0 <= k < |run| - 1 ==> StepAt(run, k)
  }

  // ---- the specification: a bounded queue of messages, one atomic operation per call ----

  datatype Replayed = Illegal | Legal(queue: seq<Message>)

  function Apply(size: nat, q: seq<Message>, l: Label): Replayed {
    match l
    case Enqueue(m) => if Fits(size, |EncodeAll(q)|, |m|) then Legal(q + [m]) else Illegal
    case Full(m) => if Fits(size, |EncodeAll(q)|, |m|) then Illegal else Legal(q)
    case Dequeue(max, m) => if q != [] && q[0] == m && |m| <= max then Legal(q[1..]) else Illegal
    case Empty(max) => if q == [] then Legal(q) else Illegal
    case TooLong(max) => if q != [] && |q[0]| > max then Legal(q) else Illegal
  }

  function Replay(size: nat, hist: seq<Label>): Replayed {
    if hist == [] then Legal([])
    else match Replay(size, hist[..|hist| - 1])
      case Illegal => Illegal
      case Legal(q) => Apply(size, q, hist[|hist| - 1])
  }

  predicate ByWriter(l: Label) {
    l.Enqueue? || l.Full?
  }

  function ResultOf(l: Label): Result {
    match l
    case Enqueue(m) => Wrote(m, true)
    case Full(m) => Wrote(m, false)
    case Dequeue(max, m) => Got(max, true, m)
    case Empty(max) => Got(max, false, [])
    case TooLong(max) => Got(max, false, [])
  }

  /** The results one side's operations have in the history. */
  function Side(hist: seq<Label>, writer: bool): seq<Result> {
    if hist == [] then []
    else
      var l := hist[|hist| - 1];
      Side(hist[..|hist| - 1], writer) + (if ByWriter(l) == writer then [ResultOf(l)] else [])
  }

  /** The operation of a call that has taken effect but not returned, if any. */
  function WPending(s: State): seq<Result> {
    match s.w
    case WLoadWrite(m, rp, seen) => if Fits(|s.ring|, seen, |m|) then [] else [Wrote(m, false)]
    case WReturn(m, ok) => [Wrote(m, ok)]
    case _ => []
  }

  function RPending(s: State): seq<Result> {
    if s.r.RReturn? then [Got(s.r.max, s.r.ok, s.r.m)] else []
  }

  /** The operations took effect one at a time, in an order a bounded queue allows, each inside its
      call, and every call returned (or is about to return) what its operation answered. */
  ghost predicate Linearizable(s: State) {
    && Replay(|s.ring|, s.hist) == Legal(s.queue)
    && Side(s.hist, true) == s.wret + WPending(s)
    && Side(s.hist, false) == s.rret + RPending(s)
  }

  // ---- the invariant ----

  ghost predicate WShape(s: State) {
    match s.w
    case WLoadRead(m) => |m| <= |s.ring| / 2
    case WLoadWrite(m, rp, seen) =>
      |m| <= |s.ring| / 2 && |EncodeAll(s.queue)| <= seen && Available(|s.ring|, rp, s.writePos) == |s.ring| - seen
    case WCopy(m, wp, body, done) =>
      && wp == s.writePos && body == Slot(|s.ring|, wp, 4) && Fits(|s.ring|, |EncodeAll(s.queue)|, |m|)
      && forall i: nat :: i in done ==> i < 4 + |m| && Peek(s.ring, Slot(|s.ring|, wp, i)) == Encode(m)[i]
    case _ => true
  }

  ghost predicate RShape(s: State) {
    match s.r
    case RLoadWrite(max, rp) => rp == s.readPos
    case RHeader(max, rp, head) =>
      && rp == s.readPos && s.queue != []
      && forall i: nat :: i in head ==> i < 4 && head[i] == Le32(|s.queue[0]|)[i]
    case RData(max, p, len, got) =>
      && s.queue != [] && p == Slot(|s.ring|, s.readPos, 4) && len == |s.queue[0]| <= max
      && forall i: nat :: i in got ==> i < len && got[i] == s.queue[0][i]
    case _ => true
  }

  /** No message is longer than half the ring. */
  ghost predicate Halves(s: State) {
    forall k :: 0 <= k < |s.queue| ==> |s.queue[k]| <= |s.ring| / 2
  }

  ghost predicate Shape(s: State) {
    && Fits32(|s.ring|) && Halves(s)
    && Holds(s.ring, s.readPos, s.writePos, s.queue)
    && WShape(s) && RShape(s)
  }

  // ---- the code's arithmetic is the layout's ----

  lemma CopyExact(size: nat, p: nat, n: nat, i: nat)
    requires Fits32(size) && p < size && n < size && i < n
    requires n == 4 || n <= size / 2
    ensures Address(size, p, p + n, i) == Slot(size, p, i) < size
    ensures n <= size / 2 ==> U32(p + n) == p + n
  {
  }

  lemma NextExact(size: nat, p: nat, n: nat)
    requires Fits32(size) && p < size && n < size
    requires n == 4 || n <= size / 2
    ensures Next(size, p, n, p + n) == Slot(size, p, n)
    ensures n <= size / 2 ==> U32(p + n) == p + n
  {
  }

  lemma FrameExact(size: nat, wp: nat, m: Message, i: nat)
    requires Fits32(size) && wp < size && |m| <= size / 2 && 6 + |m| <= size && i < 4 + |m|
    ensures FrameAddress(size, wp, Slot(size, wp, 4), m, i) == Slot(size, wp, i) < size
    ensures FrameByte(m, i) == Encode(m)[i]
  {
    if i < 4 {
      CopyExact(size, wp, 4, i);
    } else {
      CopyExact(size, Slot(size, wp, 4), |m|, i - 4);
    }
  }

  // ---- every step keeps the memory invariant ----

  lemma WCheckKeeps(s: State, s': State)
    requires Shape(s) && WCheck(s, s')
    ensures Shape(s')
    ensures s'.w.WCopy? <==> Fits(|s.ring|, s.w.seen, |s.w.m|)
  {
    if s'.w.WCopy? {
      NextExact(|s.ring|, s.writePos, 4);
    }
  }

  lemma WByteKeeps(s: State, s': State, i: nat)
    requires Shape(s) && WByte(s, s', i)
    ensures Shape(s')
  {
    var e := EncodeAll(s.queue);
    FrameExact(|s.ring|, s.w.wp, s.w.m, i);
    var a := Slot(|s.ring|, s.w.wp, i);
    assert s'.ring == s.ring[a := Encode(s.w.m)[i]];
    assert OnlyWithin(s.ring, s'.ring, s.w.wp, 4 + |s.w.m|);
    StillHeld(s.ring, s'.ring, s.readPos, e, 4 + |s.w.m|);
    forall j: nat | j in s'.w.done
      ensures j < 4 + |s.w.m| && Peek(s'.ring, Slot(|s.ring|, s.w.wp, j)) == Encode(s.w.m)[j]
    {
      if j != i {
        assert j in s.w.done;
        assert Slot(|s.ring|, s.w.wp, j) != a;
      }
    }
  }

  lemma FrameInPlace(s: State)
    requires Shape(s) && s.w.WCopy? && forall i: nat :: i < 4 + |s.w.m| ==> i in s.w.done
    ensures s.w.wp < |s.ring| && Held(s.ring, s.w.wp, Encode(s.w.m))
  {
    forall i: nat | i < |Encode(s.w.m)| ensures s.ring[Slot(|s.ring|, s.w.wp, i)] == Encode(s.w.m)[i] {
      assert i in s.w.done;
    }
  }

  lemma WStoreHolds(s: State, s': State)
    requires Shape(s) && WStore(s, s')
    ensures Holds(s'.ring, s'.readPos, s'.writePos, s'.queue)
  {
    FrameInPlace(s);
    NextExact(|s.ring|, s.w.body, |s.w.m|);
    assert s'.writePos == Slot(|s.ring|, s.w.wp, 4 + |s.w.m|);
    Appended(s.ring, s.readPos, s.w.wp, s.queue, s.w.m);
  }

  lemma WStoreKeeps(s: State, s': State)
    requires Shape(s) && WStore(s, s')
    ensures Shape(s')
  {
    WStoreHolds(s, s');
    assert s.queue != [] ==> s'.queue[0] == s.queue[0];
    assert Halves(s');
    assert RShape(s');
  }

  lemma WShapeKeeps(s: State, s': State)
    requires Shape(s) && WStep(s, s')
    ensures Shape(s')
  {
    if WCheck(s, s') {
      WCheckKeeps(s, s');
    } else if i :| WByte(s, s', i) {
      WByteKeeps(s, s', i);
    } else if WStore(s, s') {
      WStoreKeeps(s, s');
    } else {
      assert s'.ring == s.ring && s'.queue == s.queue && s'.readPos == s.readPos && s'.writePos == s.writePos;
    }
  }

  lemma RHeaderByteKeeps(s: State, s': State, i: nat)
    requires Shape(s) && RHeaderByte(s, s', i)
    ensures Shape(s')
  {
    FrontBytes(s.ring, s.readPos, s.writePos, s.queue);
    CopyExact(|s.ring|, s.r.rp, 4, i);
  }

  lemma RLengthKeeps(s: State, s': State)
    requires Shape(s) && RLength(s, s')
    ensures Shape(s')
    ensures s'.r.RReturn? <==> |s.queue[0]| > s.r.max
  {
    var n, h := |s.queue[0]|, s.r.head;
    FrontBytes(s.ring, s.readPos, s.writePos, s.queue);
    assert [h[0], h[1], h[2], h[3]] == Le32(n);
    DecodeLe32(n);
    NextExact(|s.ring|, s.r.rp, 4);
  }

  lemma RDataByteKeeps(s: State, s': State, i: nat)
    requires Shape(s) && RDataByte(s, s', i)
    ensures Shape(s')
  {
    FrontBytes(s.ring, s.readPos, s.writePos, s.queue);
    CopyExact(|s.ring|, s.r.p, s.r.len, i);
  }

  /** The bytes copied are the first message, and the stored position is the end of its frame. */
  lemma FrameConsumed(s: State, s': State)
    requires Shape(s) && RStore(s, s')
    ensures s'.r.m == s.queue[0] && s'.readPos == Slot(|s.ring|, s.readPos, 4 + |s.queue[0]|)
  {
    FrontBytes(s.ring, s.readPos, s.writePos, s.queue);
    NextExact(|s.ring|, s.r.p, s.r.len);
    assert |s'.r.m| == s.r.len;
  }

  lemma RStoreHolds(s: State, s': State)
    requires Shape(s) && RStore(s, s')
    ensures Holds(s'.ring, s'.readPos, s'.writePos, s'.queue)
    ensures s'.r.m == s.queue[0] && |EncodeAll(s'.queue)| <= |EncodeAll(s.queue)|
  {
    FrameConsumed(s, s');
    Popped(s.ring, s.readPos, s.writePos, s.queue);
  }

  lemma RStoreKeeps(s: State, s': State)
    requires Shape(s) && RStore(s, s')
    ensures Shape(s')
  {
    RStoreHolds(s, s');
    assert Halves(s') by {
      forall k | 0 <= k < |s'.queue| ensures |s'.queue[k]| <= |s.ring| / 2 { assert s'.queue[k] == s.queue[k + 1]; }
    }
  }

  lemma RShapeKeeps(s: State, s': State)
    requires Shape(s) && RStep(s, s')
    ensures Shape(s')
  {
    if i :| RHeaderByte(s, s', i) {
      RHeaderByteKeeps(s, s', i);
    } else if RLength(s, s') {
      RLengthKeeps(s, s');
    } else if i :| RDataByte(s, s', i) {
      RDataByteKeeps(s, s', i);
    } else if RStore(s, s') {
      RStoreKeeps(s, s');
    } else {
      assert s'.ring == s.ring && s'.queue == s.queue && s'.readPos == s.readPos && s'.writePos == s.writePos;
    }
  }

  // ---- every step keeps the history linearizable ----

  /** One operation more at the end of the history. */
  lemma Extend(size: nat, hist: seq<Label>, l: Label)
    requires Replay(size, hist).Legal?
    ensures Replay(size, hist + [l]) == Apply(size, Replay(size, hist).queue, l)
    ensures Side(hist + [l], ByWriter(l)) == Side(hist, ByWriter(l)) + [ResultOf(l)]
    ensures Side(hist + [l], !ByWriter(l)) == Side(hist, !ByWriter(l))
  {
    assert (hist + [l])[..|hist|] == hist;
  }

  /** An operation the queue allows takes effect: the history stays legal, and its side owes its result. */
  lemma TakesEffect(s: State, s': State, l: Label)
    requires Linearizable(s) && |s'.ring| == |s.ring|
    requires s'.hist == s.hist + [l] && Apply(|s.ring|, s.queue, l) == Legal(s'.queue)
    requires s'.wret == s.wret && s'.rret == s.rret
    requires if ByWriter(l) then WPending(s) == [] && WPending(s') == [ResultOf(l)] && RPending(s') == RPending(s)
             else RPending(s) == [] && RPending(s') == [ResultOf(l)] && WPending(s') == WPending(s)
    ensures Linearizable(s')
  {
    Extend(|s.ring|, s.hist, l);
  }

  /** The check answers what was decided when the read position was loaded. */
  lemma WCheckLinear(s: State, s': State)
    requires Shape(s) && Linearizable(s) && WCheck(s, s')
    ensures Linearizable(s')
  {
    WCheckKeeps(s, s');
  }

  /** A step that takes no effect leaves each side's results, returned and pending, as they are. */
  lemma Unaffected(s: State, s': State)
    requires Linearizable(s) && |s'.ring| == |s.ring| && s'.queue == s.queue && s'.hist == s.hist
    requires s'.wret + WPending(s') == s.wret + WPending(s) && s'.rret + RPending(s') == s.rret + RPending(s)
    ensures Linearizable(s')
  {
  }

  lemma WQuietSteps(s: State, s': State)
    requires WStep(s, s') && !WCheck(s, s') && s'.hist == s.hist
    ensures |s'.ring| == |s.ring| && s'.queue == s.queue && s'.rret == s.rret && s'.r == s.r
    ensures s'.wret + WPending(s') == s.wret + WPending(s)
  {
    assert s'.wret + [] == s'.wret;
  }

  lemma WQuiet(s: State, s': State)
    requires Linearizable(s) && s'.hist == s.hist && WStep(s, s') && !WCheck(s, s')
    ensures Linearizable(s')
  {
    WQuietSteps(s, s');
    Unaffected(s, s');
  }

  lemma WCallLinear(s: State, s': State, m: Message)
    requires Linearizable(s) && WCall(s, s', m) && s'.hist != s.hist
    ensures Linearizable(s')
  {
    TakesEffect(s, s', Full(m));
  }

  lemma WLoadLinear(s: State, s': State)
    requires Linearizable(s) && WLoad(s, s') && s'.hist != s.hist
    ensures Linearizable(s')
  {
    TakesEffect(s, s', Full(s.w.m));
  }

  lemma WStoreLinear(s: State, s': State)
    requires Shape(s) && Linearizable(s) && WStore(s, s')
    ensures Linearizable(s')
  {
    TakesEffect(s, s', Enqueue(s.w.m));
  }

  lemma WLinear(s: State, s': State)
    requires Shape(s) && Linearizable(s) && WStep(s, s')
    ensures Linearizable(s')
  {
    if WCheck(s, s') {
      WCheckLinear(s, s');
    } else if s'.hist == s.hist {
      WQuiet(s, s');
    } else if m :| WCall(s, s', m) {
      WCallLinear(s, s', m);
    } else if WLoad(s, s') {
      WLoadLinear(s, s');
    } else {
      WStoreLinear(s, s');
    }
  }

  lemma RLengthLinear(s: State, s': State)
    requires Shape(s) && Linearizable(s) && RLength(s, s')
    ensures Linearizable(s')
  {
    RLengthKeeps(s, s');
    if s'.r.RReturn? {
      TakesEffect(s, s', TooLong(s.r.max));
    }
  }

  lemma RStoreLinear(s: State, s': State)
    requires Shape(s) && Linearizable(s) && RStore(s, s')
    ensures Linearizable(s')
  {
    RStoreHolds(s, s');
    TakesEffect(s, s', Dequeue(s.r.max, s'.r.m));
  }

  lemma RQuietSteps(s: State, s': State)
    requires RStep(s, s') && !RLength(s, s') && s'.hist == s.hist
    ensures s'.ring == s.ring && s'.queue == s.queue && s'.wret == s.wret && s'.w == s.w
    ensures s'.rret + RPending(s') == s.rret + RPending(s)
  {
    assert s'.rret + [] == s'.rret;
  }

  lemma RQuiet(s: State, s': State)
    requires Linearizable(s) && s'.hist == s.hist && RStep(s, s') && !RLength(s, s')
    ensures Linearizable(s')
  {
    RQuietSteps(s, s');
    Unaffected(s, s');
  }

  lemma RLinear(s: State, s': State)
    requires Shape(s) && Linearizable(s) && RStep(s, s')
    ensures Linearizable(s')
  {
    if RLength(s, s') {
      RLengthLinear(s, s');
    } else if s'.hist == s.hist {
      RQuiet(s, s');
    } else if RStore(s, s') {
      RStoreLinear(s, s');
    } else {
      TakesEffect(s, s', Empty(s.r.max));
    }
  }

  // ---- main results ----

  /** What holds of every state of a run. */
  ghost predicate Good(s: State) {
    Shape(s) && Linearizable(s)
  }

  lemma InitGood(s: State)
    requires Init(s)
    ensures Good(s)
  {
  }

  lemma StepGood(run: seq<State>, k: nat)
    requires IsRun(run) && k < |run| - 1 && Good(run[k])
    ensures Good(run[k + 1])
  {
    assert StepAt(run, k);
    var s, s' := run[k], run[k + 1];
    if WStep(s, s') {
      WShapeKeeps(s, s');
      WLinear(s, s');
    } else {
      RShapeKeeps(s, s');
      RLinear(s, s');
    }
  }

  lemma {:induction false} RunKeeps(run: seq<State>, i: nat)
    requires IsRun(run) && i < |run|
    ensures Good(run[i])
  {
    if i == 0 {
      InitGood(run[0]);
    } else {
      RunKeeps(run, i - 1);
      StepGood(run, i - 1);
    }
  }

  /** What has taken effect, or returned, stays so. */
  lemma {:induction false} HistoryGrows(run: seq<State>, i: nat, j: nat)
    requires IsRun(run) && i <= j < |run|
    ensures run[i].hist <= run[j].hist && run[i].wret <= run[j].wret && run[i].rret <= run[j].rret
    decreases j
  {
    if i < j {
      assert StepAt(run, j - 1);
      HistoryGrows(run, i, j - 1);
      StepGrows(run[j - 1], run[j]);
    }
  }

  lemma StepGrows(s: State, s': State)
    requires WStep(s, s') || RStep(s, s')
    ensures s.hist <= s'.hist && s.wret <= s'.wret && s.rret <= s'.rret
  {
  }

  lemma LinearAt(run: seq<State>, i: nat)
    requires IsRun(run) && i < |run|
    ensures Linearizable(run[i])
    ensures run[i].w.WIdle? ==> Side(run[i].hist, true) == run[i].wret
    ensures run[i].r.RIdle? ==> Side(run[i].hist, false) == run[i].rret
  {
    RunKeeps(run, i);
    var s := run[i];
    assert s.wret + [] == s.wret && s.rret + [] == s.rret;
  }

  /** Every interleaving of one writer and one reader is linearizable to a bounded FIFO queue: at every point
      the calls have taken effect one at a time as a queue allows, each between its call and its return.
      For the history only grows along a run, and in a state where a side is idle it holds exactly the
      operations of that side's returned calls. */
  lemma LockFreeLinearizable(run: seq<State>, i: nat, j: nat)
    requires IsRun(run) && i <= j < |run|
    ensures Linearizable(run[i]) && Linearizable(run[j]) && run[i].hist <= run[j].hist
    ensures run[i].w.WIdle? ==> Side(run[i].hist, true) == run[i].wret <= run[j].wret
    ensures run[i].r.RIdle? ==> Side(run[i].hist, false) == run[i].rret <= run[j].rret
  {
    LinearAt(run, i);
    LinearAt(run, j);
    HistoryGrows(run, i, j);
  }

  /** While the writer copies, it stays in the ring and off every byte of the queue, however stale its
      read position; the queue's bytes are all in place for the reader. */
  lemma NoByteInUseOverwritten(run: seq<State>, i: nat, j: nat)
    requires IsRun(run)
    requires var s := run[|run| - 1]; s.w.WCopy? && i < 4 + |s.w.m| && j < |EncodeAll(s.queue)|
    ensures var s := run[|run| - 1];
            && 0 <= FrameAddress(|s.ring|, s.w.wp, s.w.body, s.w.m, i) < |s.ring|
            && FrameAddress(|s.ring|, s.w.wp, s.w.body, s.w.m, i) != Slot(|s.ring|, s.readPos, j) < |s.ring|
            && s.ring[Slot(|s.ring|, s.readPos, j)] == EncodeAll(s.queue)[j]
  {
    RunKeeps(run, |run| - 1);
    OffTheQueue(run[|run| - 1], i, j);
  }

  lemma OffTheQueue(s: State, i: nat, j: nat)
    requires Shape(s) && s.w.WCopy? && i < 4 + |s.w.m| && j < |EncodeAll(s.queue)|
    ensures 0 <= FrameAddress(|s.ring|, s.w.wp, s.w.body, s.w.m, i) < |s.ring|
    ensures FrameAddress(|s.ring|, s.w.wp, s.w.body, s.w.m, i) != Slot(|s.ring|, s.readPos, j) < |s.ring|
    ensures s.ring[Slot(|s.ring|, s.readPos, j)] == EncodeAll(s.queue)[j]
  {
    FrameExact(|s.ring|, s.w.wp, s.w.m, i);
  }

  function Ins(hist: seq<Label>): seq<Message> {
    if hist == [] then []
    else Ins(hist[..|hist| - 1]) + (if hist[|hist| - 1].Enqueue? then [hist[|hist| - 1].m] else [])
  }

  function Outs(hist: seq<Label>): seq<Message> {
    if hist == [] then []
    else Outs(hist[..|hist| - 1]) + (if hist[|hist| - 1].Dequeue? then [hist[|hist| - 1].m] else [])
  }

  /** Whatever history is legal, messages come out in the order they went in, whole and once. */
  lemma {:induction false} LegalIsFifo(size: nat, hist: seq<Label>)
    requires Replay(size, hist).Legal?
    ensures Ins(hist) == Outs(hist) + Replay(size, hist).queue
  {
    if hist != [] {
      var before := hist[..|hist| - 1];
      LegalIsFifo(size, before);
      var q := Replay(size, before).queue;
      if q != [] {
        assert q == [q[0]] + q[1..];
      }
    }
  }

  // ---- a call that runs alone ----

  /** What a writer in a call has done to the queue q it found, if no reader came between. */
  ghost predicate WAlone(q: seq<Message>, s: State) {
    var size, used := |s.ring|, |EncodeAll(q)|;
    match s.w
    case WIdle => false
    case WLoadRead(m) => s.queue == q && |m| <= size / 2
    case WLoadWrite(m, rp, seen) => s.queue == q && seen == used
    case WCopy(m, wp, body, done) => s.queue == q && Fits(size, used, |m|)
    case WReturn(m, ok) => (ok <==> Fits(size, used, |m|)) && s.queue == if ok then q + [m] else q
  }

  ghost predicate RAlone(q: seq<Message>, s: State) {
    match s.r
    case RIdle => false
    case RLoadRead(max) => s.queue == q
    case RLoadWrite(max, rp) => s.queue == q
    case RHeader(max, rp, head) => s.queue == q && q != []
    case RData(max, p, len, got) => s.queue == q && q != [] && |q[0]| <= max
    case RReturn(max, ok, m) =>
      && (ok <==> q != [] && |q[0]| <= max)
      && m == (if ok then q[0] else []) && s.queue == if ok then q[1..] else q
  }

  /** From state i to state j the writer is in one call and the reader in none. */
  ghost predicate OnlyWrites(run: seq<State>, i: nat, j: nat) {
    && i < j < |run| && run[i].w.WIdle?
    && forall k :: i <= k <= j ==> run[k].r.RIdle? && (k > i ==> !run[k].w.WIdle?)
  }

  ghost predicate OnlyReads(run: seq<State>, i: nat, j: nat) {
    && i < j < |run| && run[i].r.RIdle?
    && forall k :: i <= k <= j ==> run[k].w.WIdle? && (k > i ==> !run[k].r.RIdle?)
  }

  lemma WriterSteps(q: seq<Message>, s: State, s': State)
    requires Shape(s) && WStep(s, s') && !s'.w.WIdle?
    requires if s.w.WIdle? then s.queue == q else WAlone(q, s)
    ensures WAlone(q, s')
  {
    if WCheck(s, s') { WCheckKeeps(s, s'); }
  }

  lemma WriterAlone(q: seq<Message>, run: seq<State>, k: nat)
    requires IsRun(run) && k < |run| - 1 && run[k + 1].r.RIdle? && !run[k + 1].w.WIdle?
    requires run[k].r.RIdle? && if run[k].w.WIdle? then run[k].queue == q else WAlone(q, run[k])
    ensures WAlone(q, run[k + 1])
  {
    RunKeeps(run, k);
    assert StepAt(run, k);
    WriterSteps(q, run[k], run[k + 1]);
  }

  lemma ReaderSteps(q: seq<Message>, s: State, s': State)
    requires Shape(s) && RStep(s, s') && !s'.r.RIdle?
    requires if s.r.RIdle? then s.queue == q else RAlone(q, s)
    ensures RAlone(q, s')
  {
    if RLength(s, s') {
      RLengthKeeps(s, s');
    } else if RStore(s, s') {
      RStoreHolds(s, s');
    }
  }

  lemma ReaderAlone(q: seq<Message>, run: seq<State>, k: nat)
    requires IsRun(run) && k < |run| - 1 && run[k + 1].w.WIdle? && !run[k + 1].r.RIdle?
    requires run[k].w.WIdle? && if run[k].r.RIdle? then run[k].queue == q else RAlone(q, run[k])
    ensures RAlone(q, run[k + 1])
  {
    RunKeeps(run, k);
    assert StepAt(run, k);
    ReaderSteps(q, run[k], run[k + 1]);
  }

  lemma {:induction false} WriteAlone(run: seq<State>, i: nat, j: nat)
    requires IsRun(run) && OnlyWrites(run, i, j)
    ensures WAlone(run[i].queue, run[j])
    decreases j
  {
    if i < j - 1 { WriteAlone(run, i, j - 1); }
    WriterAlone(run[i].queue, run, j - 1);
  }

  lemma {:induction false} ReadAlone(run: seq<State>, i: nat, j: nat)
    requires IsRun(run) && OnlyReads(run, i, j)
    ensures RAlone(run[i].queue, run[j])
    decreases j
  {
    if i < j - 1 { ReadAlone(run, i, j - 1); }
    ReaderAlone(run[i].queue, run, j - 1);
  }

  /** A write during which no read is under way is one atomic queue operation: it succeeds exactly if the
      queue it found has room, and has its whole effect or none. */
  lemma WriteAloneIsAtomic(run: seq<State>, i: nat, j: nat)
    requires IsRun(run) && OnlyWrites(run, i, j) && run[j].w.WReturn?
    ensures var q, m, ok := run[i].queue, run[j].w.m, run[j].w.ok;
            && (ok <==> |m| <= |run[j].ring| / 2 && |EncodeAll(q)| + |m| + 4 <= |run[j].ring| - 2)
            && run[j].queue == if ok then q + [m] else q
  {
    WriteAlone(run, i, j);
  }

  /** And so is a read during which no write is. */
  lemma ReadAloneIsAtomic(run: seq<State>, i: nat, j: nat)
    requires IsRun(run) && OnlyReads(run, i, j) && run[j].r.RReturn?
    ensures var q, r := run[i].queue, run[j].r;
            && (r.ok <==> q != [] && |q[0]| <= r.max) && r.m == (if r.ok then q[0] else [])
            && run[j].queue == if r.ok then q[1..] else q
  {
    ReadAlone(run, i, j);
  }
}
