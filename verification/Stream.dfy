/** The socket client (uds_nonblocking.c:15-67, 257-315): loops that transfer exactly n bytes through a
    kernel that may interrupt them, make them wait or move any part, and the messages carried on top. */
module Stream {
  import opened Bytes
  import opened Config
  import opened Frames
  import opened Messages

  // ---- the kernel ----

  /** What recv or send comes to: interrupted, nothing to do yet (and how the poll ends that then waits),
      an error, or some bytes moved. */
  datatype Answer = Interrupted | WouldBlock(pollSucceeds: bool) | Fails | Moves(most: nat)

  predicate Fatal(a: Answer) {
    a.Fails? || a == WouldBlock(false)
  }

  ghost predicate Benign(answers: seq<Answer>) {
    forall a :: a in answers ==> !Fatal(a)
  }

  function Min(x: nat, y: nat): nat {
    if x <= y then x else y
  }

  /** A buffer with data stored at an offset. */
  function Overlay(buf: seq<byte>, at: nat, data: seq<byte>): (r: seq<byte>)
    requires at + |data| <= |buf|
    ensures |r| == |buf|
  {
    seq(|buf|, i requires 0 <= i < |buf| => if at <= i < at + |data| then data[i - at] else buf[i])
  }

  /** What a call does with the schedule: it uses the next entry, if there is one. */
  ghost predicate Answered(before: seq<Answer>, a: Answer, after: seq<Answer>) {
    if before == [] then a.Moves? && after == []
    else after == before[1..] && if before[0].Moves? then a.Moves? else a == before[0]
  }

  /** What a run of calls does with the schedule: it uses up a front of it, in which exactly the last entry
      is fatal if the run failed, and none if not. */
  ghost predicate Consumed(before: seq<Answer>, after: seq<Answer>, failed: bool) {
    var used := |before| - |after|;
    && 0 <= used && after == before[used..] && (failed ==> used > 0)
    && forall i :: 0 <= i < used ==> (Fatal(before[i]) <==> failed && i == used - 1)
  }

  lemma OneConsumed(before: seq<Answer>, a: Answer, after: seq<Answer>)
    requires Answered(before, a, after)
    ensures Consumed(before, after, Fatal(a))
    ensures before != [] ==> |after| < |before|
    ensures before == [] ==> after == [] && a.Moves?
  {
  }

  lemma ThenConsumed(x: seq<Answer>, y: seq<Answer>, z: seq<Answer>, failed: bool)
    requires Consumed(x, y, false) && Consumed(y, z, failed)
    ensures Consumed(x, z, failed)
  {
    var m, n := |x| - |y|, |x| - |z|;
    assert x[m..][n - m..] == x[n..];
    forall i | m <= i < n ensures x[i] == y[i - m] {
    }
  }

  lemma BenignConsumed(before: seq<Answer>, after: seq<Answer>, failed: bool)
    requires Consumed(before, after, failed) && Benign(before)
    ensures !failed && Benign(after)
  {
    var used := |before| - |after|;
    assert used > 0 ==> before[used - 1] in before;
    assert forall a :: a in before[used..] ==> a in before;
  }

  lemma OverlayTwice(buf: seq<byte>, at: nat, x: seq<byte>, y: seq<byte>)
    requires at + |x| + |y| <= |buf|
    ensures Overlay(Overlay(buf, at, x), at + |x|, y) == Overlay(buf, at, x + y)
  {
  }

  /** Receiving on: k more bytes of the stream behind the first total. */
  lemma ReceivedOn(buf: seq<byte>, at: nat, stream: seq<byte>, total: nat, k: nat)
    requires total + k <= |stream| && at + total + k <= |buf|
    ensures Overlay(Overlay(buf, at, stream[..total]), at + total, stream[total..][..k])
            == Overlay(buf, at, stream[..total + k])
    ensures stream[total..][k..] == stream[total + k..]
  {
    OverlayTwice(buf, at, stream[..total], stream[total..][..k]);
    assert stream[..total] + stream[total..][..k] == stream[..total + k];
  }

  /** Sending on: k more bytes of the buffer behind the first total. */
  lemma SentOn(out: seq<byte>, buf: seq<byte>, total: nat, k: nat)
    requires total + k <= |buf|
    ensures (out + buf[..total]) + buf[total..total + k] == out + buf[..total + k]
  {
    assert buf[..total] + buf[total..total + k] == buf[..total + k];
  }

  /** One end of a connection. incoming holds what the peer sends before it closes. answers is the
      adversary's schedule: one entry for each call, and after the last whatever is possible. */
  class Socket {
    var incoming: seq<byte>
    var outgoing: seq<byte>
    var answers: seq<Answer>

    constructor (incoming: seq<byte>, answers: seq<Answer>)
      ensures this.incoming == incoming && outgoing == [] && this.answers == answers
    {
      this.incoming, outgoing, this.answers := incoming, [], answers;
    }

    /** The schedule's answer to a request for len bytes: on a stream at least one of them moves. */
    method Next(len: nat) returns (a: Answer)
      requires len > 0
      modifies this`answers
      ensures Answered(old(answers), a, answers) && (a.Moves? ==> 0 < a.most <= len)
    {
      if answers == [] {
        return Moves(len);
      }
      a := answers[0];
      answers := answers[1..];
      if a.Moves? {
        a := Moves(if a.most == 0 then 1 else Min(a.most, len));
      }
    }

    /** Nothing is received exactly when the peer has closed and all it sent is consumed. */
    method Recv(buf: array<byte>, at: nat, len: nat) returns (a: Answer)
      requires 0 < len && at + len <= buf.Length
      modifies this`incoming, this`answers, buf
      ensures Answered(old(answers), a, answers)
      ensures a.Moves? ==>
                && a.most <= Min(len, |old(incoming)|) && (a.most == 0 <==> old(incoming) == [])
                && incoming == old(incoming)[a.most..]
                && buf[..] == Overlay(old(buf[..]), at, old(incoming)[..a.most])
      ensures !a.Moves? ==> incoming == old(incoming) && buf[..] == old(buf[..])
    {
      a := Next(len);
      if a.Moves? {
        var k := Min(a.most, |incoming|);
        forall i | 0 <= i < k {
          buf[at + i] := incoming[i];
        }
        incoming := incoming[k..];
        a := Moves(k);
      }
    }

    method Send(buf: array<byte>, at: nat, len: nat) returns (a: Answer)
      requires 0 < len && at + len <= buf.Length
      modifies this`outgoing, this`answers
      ensures Answered(old(answers), a, answers)
      ensures a.Moves? ==> 0 < a.most <= len && outgoing == old(outgoing) + buf[at..at + a.most]
      ensures !a.Moves? ==> outgoing == old(outgoing)
    {
      a := Next(len);
      if a.Moves? {
        outgoing := outgoing + buf[at..at + a.most];
      }
    }
  }

  // ---- exact transfers ----

  /** Whatever the schedule, the next bytes of the stream land in order and nothing else changes; r is -1
      exactly if a fatal answer came, which then was the last; otherwise r is n, or fewer exactly at the end
      of the stream. */
  method ReadNonblocking(sock: Socket, buf: array<byte>, at: nat, n: nat) returns (r: int, ghost moved: nat)
    requires at + n <= buf.Length
    modifies sock`incoming, sock`answers, buf
    ensures moved <= n && moved <= |old(sock.incoming)|
    ensures r == -1 || r == moved == Min(n, |old(sock.incoming)|)
    ensures sock.incoming == old(sock.incoming)[moved..]
    ensures buf[..] == Overlay(old(buf[..]), at, old(sock.incoming)[..moved])
    ensures Consumed(old(sock.answers), sock.answers, r == -1)
  {
    var total := 0;
    moved := 0;
    ghost var in0, buf0 := sock.incoming, buf[..];
    while total < n
      invariant moved == total <= n && total <= |in0|
      invariant sock.incoming == in0[total..]
      invariant buf[..] == Overlay(buf0, at, in0[..total])
      invariant Consumed(old(sock.answers), sock.answers, false)
      decreases |sock.answers|, n - total
    {
      ghost var before := sock.answers;
      var a := sock.Recv(buf, at + total, n - total);
      OneConsumed(before, a, sock.answers);
      ThenConsumed(old(sock.answers), before, sock.answers, Fatal(a));
      match a {
        case Interrupted =>
        case WouldBlock(pollSucceeds) =>
          if !pollSucceeds {
            return -1, moved;
          }
        case Fails =>
          return -1, moved;
        case Moves(k) =>
          if k == 0 {
            break;
          }
          ReceivedOn(buf0, at, in0, total, k);
          total := total + k;
          moved := total;
      }
    }
    r := total;
  }

  /** Whatever the schedule, exactly the n bytes are emitted, in order; or, exactly if a fatal answer came,
      which then was the last, -1 and a proper front of them. */
  method WriteNonblocking(sock: Socket, buf: array<byte>, n: nat) returns (r: int, ghost moved: nat)
    requires n <= buf.Length
    modifies sock`outgoing, sock`answers
    ensures if r == -1 then moved < n else r == moved == n
    ensures sock.outgoing == old(sock.outgoing) + buf[..moved]
    ensures Consumed(old(sock.answers), sock.answers, r == -1)
  {
    var total := 0;
    moved := 0;
    while total < n
      invariant moved == total <= n
      invariant sock.outgoing == old(sock.outgoing) + buf[..total]
      invariant Consumed(old(sock.answers), sock.answers, false)
      decreases |sock.answers|, n - total
    {
      ghost var before := sock.answers;
      var a := sock.Send(buf, total, n - total);
      OneConsumed(before, a, sock.answers);
      ThenConsumed(old(sock.answers), before, sock.answers, Fatal(a));
      match a {
        case Interrupted =>
        case WouldBlock(pollSucceeds) =>
          if !pollSucceeds {
            return -1, moved;
          }
        case Fails =>
          return -1, moved;
        case Moves(k) =>
          SentOn(old(sock.outgoing), buf[..], total, k);
          total := total + k;
          moved := total;
      }
    }
    r := total;
  }

  // ---- messages on the stream ----

  /** A failed validation is only reported: the operation still counts. */
  datatype Received = Lost | Refused | Counted(size: nat, verdict: Verdict)

  predicate SizeOk(size: nat) {
    SIZEOF_MESSAGE + 4 <= size <= MAX_MSG_SIZE
  }

  /** The buffer after up to n bytes of the stream have arrived at its start. */
  function Arrived(buf: seq<byte>, stream: seq<byte>, n: nat): (r: seq<byte>)
    requires n <= |buf|
    ensures |r| == |buf|
  {
    Overlay(buf, 0, stream[..Min(n, |stream|)])
  }

  /** The size the client reads after asking for a header, of which at least one byte came. */
  function SizeSeen(buf: seq<byte>, stream: seq<byte>): nat
    requires |buf| == MAX_MSG_SIZE
  {
    Word(Arrived(buf, stream, SIZEOF_MESSAGE), 4)
  }

  /** What the client makes of a stream when no call fails. */
  function Response(buf: seq<byte>, stream: seq<byte>): Received
    requires |buf| == MAX_MSG_SIZE
  {
    var size := SizeSeen(buf, stream);
    if stream == [] then Lost
    else if !SizeOk(size) then Refused
    else Counted(size, Validate(Arrived(buf, stream, size), size))
  }

  /** Reading a header and then the rest is reading the whole, wherever the stream ends. */
  lemma HeadThenBody(buf: seq<byte>, stream: seq<byte>, size: nat)
    requires SIZEOF_MESSAGE <= size <= |buf|
    ensures var h := Min(SIZEOF_MESSAGE, |stream|);
            var rest := stream[h..];
            var b := Min(size - SIZEOF_MESSAGE, |rest|);
            && Overlay(Arrived(buf, stream, SIZEOF_MESSAGE), SIZEOF_MESSAGE, rest[..b]) == Arrived(buf, stream, size)
            && rest[b..] == stream[Min(size, |stream|)..]
  {
    var h := Min(SIZEOF_MESSAGE, |stream|);
    if h == SIZEOF_MESSAGE {
      ReceivedOn(buf, 0, stream, h, Min(size, |stream|) - h);
    }
  }

  /** failed: a call was answered fatally, and was the last. */
  method ReceiveResponse(sock: Socket, buf: array<byte>) returns (res: Received, ghost failed: bool)
    requires buf.Length == MAX_MSG_SIZE
    modifies sock`incoming, sock`answers, buf
    ensures res == if failed then Lost else Response(old(buf[..]), old(sock.incoming))
    ensures res.Counted? ==> var k := Min(res.size, |old(sock.incoming)|);
              sock.incoming == old(sock.incoming)[k..] && buf[..] == Arrived(old(buf[..]), old(sock.incoming), res.size)
    ensures Consumed(old(sock.answers), sock.answers, failed)
  {
    ghost var in0, buf0 := sock.incoming, buf[..];
    var headerBytes, head := ReadNonblocking(sock, buf, 0, SIZEOF_MESSAGE);
    if headerBytes <= 0 {
      return Lost, headerBytes == -1;
    }
    ghost var between := sock.answers;
    var size := Word(buf[..], 4);
    if size < SIZEOF_MESSAGE + 4 || size > MAX_MSG_SIZE {
      return Refused, false;
    }
    var bodyBytes, body := ReadNonblocking(sock, buf, SIZEOF_MESSAGE, size - SIZEOF_MESSAGE);
    ThenConsumed(old(sock.answers), between, sock.answers, bodyBytes == -1);
    if bodyBytes < 0 {
      return Lost, true;
    }
    HeadThenBody(buf0, in0, size);
    res, failed := Counted(size, Validate(buf[..], size)), false;
  }

  /** A message its own size field delimits. */
  ghost predicate Delimited(m: Message) {
    SizeOk(|m|) && Word(m, 4) == |m|
  }

  ghost predicate AllDelimited(ms: seq<Message>) {
    forall i :: 0 <= i < |ms| ==> Delimited(ms[i])
  }

  ghost predicate AllCheck(ms: seq<Message>) {
    forall i :: 0 <= i < |ms| ==> Checks(ms[i])
  }

  /** Messages back to back. */
  function Wire(ms: seq<Message>): seq<byte> {
    if ms == [] then [] else ms[0] + Wire(ms[1..])
  }

  lemma {:induction false} WireAppend(ms: seq<Message>, m: Message)
    ensures Wire(ms + [m]) == Wire(ms) + m
  {
    if ms == [] {
      assert [m][1..] == [] && [] + [m] == [m] && Wire([m]) == m + Wire([]);
    } else {
      WireAppend(ms[1..], m);
      assert (ms + [m])[1..] == ms[1..] + [m];
    }
  }

  /** A whole message at the head of the stream is received as it was sent. */
  lemma WholeMessage(buf: seq<byte>, m: Message, rest: seq<byte>)
    requires |buf| == MAX_MSG_SIZE && Delimited(m)
    ensures Response(buf, m + rest).Counted? && Response(buf, m + rest).size == |m|
    ensures Arrived(buf, m + rest, |m|)[..|m|] == m
    ensures Response(buf, m + rest).verdict == Valid <==> Checks(m)
  {
    var stream := m + rest;
    assert stream[..|m|] == m;
    assert SizeSeen(buf, stream) == Word(m, 4);
    FrontDecides(m, Arrived(buf, stream, |m|));
  }

  /** The message at the front of a buffer decides the verdict there. */
  lemma FrontDecides(m: Message, buf: seq<byte>)
    requires SizeOk(|m|) && |m| <= |buf| && buf[..|m|] == m
    ensures Readable(buf, |m|) && (Validate(buf, |m|) == Valid <==> Checks(m))
  {
    CutVerdict(buf, |m|);
    assert Validate(m, |m|) == Validate(buf, |m|);
  }

  /** Nothing is received exactly from an empty stream; after a whole header, a response is refused exactly if
      its size field is below 36 or above 131072, and otherwise counts with that size. */
  lemma ResponseExactly(buf: seq<byte>, stream: seq<byte>)
    requires |buf| == MAX_MSG_SIZE && (stream == [] || SIZEOF_MESSAGE <= |stream|)
    ensures Response(buf, stream).Lost? <==> stream == []
    ensures stream != [] ==>
              var size := Word(stream, 4);
              && (Response(buf, stream).Refused? <==> size < 36 || size > 131072)
              && (Response(buf, stream).Counted? ==> Response(buf, stream).size == size)
  {
    if stream != [] {
      assert Word(Arrived(buf, stream, SIZEOF_MESSAGE), 4) == Word(stream, 4);
    }
  }

  /** The stream determines its messages. */
  lemma {:induction false} WireInjective(p: seq<Message>, q: seq<Message>)
    requires AllDelimited(p) && AllDelimited(q) && Wire(p) == Wire(q)
    ensures p == q
  {
    if p != [] && q != [] {
      assert Word(Wire(p), 4) == |p[0]| && Word(Wire(q), 4) == |q[0]|;
      assert p[0] == Wire(p)[..|p[0]|] && q[0] == Wire(q)[..|q[0]|];
      assert Wire(p[1..]) == Wire(p)[|p[0]|..] && Wire(q[1..]) == Wire(q)[|q[0]|..];
      WireInjective(p[1..], q[1..]);
      assert p == [p[0]] + p[1..] && q == [q[0]] + q[1..];
    }
  }

  /** A counted operation need not have been received whole: if the peer closes inside its echo, the
      request still in the buffer completes it. Any front of the echo but the empty one counts as the
      full, valid message. */
  lemma TruncatedEchoCounts(buf: seq<byte>, k: nat)
    requires |buf| == MAX_MSG_SIZE && SizeOk(Word(buf, 4)) && k <= Word(buf, 4)
    requires Validate(buf, Word(buf, 4)) == Valid
    ensures Response(buf, buf[..k]) == if k == 0 then Lost else Counted(Word(buf, 4), Valid)
  {
    if k > 0 {
      var size := Word(buf, 4);
      assert Arrived(buf, buf[..k], SIZEOF_MESSAGE) == buf;
      assert Arrived(buf, buf[..k], size) == buf;
    }
  }

  // ---- the client ----

  /** What one round takes from outside: a random number and two clock readings. */
  datatype Tick = Tick(rand: nat, built: nat, stamped: nat)

  /** random_message, and the timestamp over it. */
  method PrepareRequest(buf: array<byte>, tick: Tick)
    requires buf.Length == MAX_MSG_SIZE
    modifies buf
    ensures Built(old(buf[..]), buf[..], PayloadSize(MIN_PAYLOAD, MAX_PAYLOAD, tick.rand), tick.stamped)
  {
    ghost var before := buf[..];
    RandomMessage(buf, MIN_PAYLOAD, MAX_PAYLOAD, tick.rand, tick.built);
    ghost var built := buf[..];
    Store32(buf, 16, tick.stamped);
    Store32(buf, 20, tick.stamped / 0x1_0000_0000);
    assert Word(buf[..], 16) == U32(tick.stamped);
    ghost var n := PayloadSize(MIN_PAYLOAD, MAX_PAYLOAD, tick.rand);
    TimestampOverwrite(before, built, buf[..], n, tick.built, tick.stamped);
  }

  /** Emits a new request: all of it, or a front if a call fails. */
  method SendRequest(sock: Socket, buf: array<byte>, tick: Tick) returns (ok: bool, ghost request: Message)
    requires buf.Length == MAX_MSG_SIZE
    modifies sock`outgoing, sock`answers, buf
    ensures request == Cut(buf[..], Word(buf[..], 4)) && AllCheck([request]) && AllDelimited([request])
    ensures if ok then sock.outgoing == old(sock.outgoing) + request else old(sock.outgoing) <= sock.outgoing
    ensures Consumed(old(sock.answers), sock.answers, !ok)
  {
    ghost var before := buf[..];
    PrepareRequest(buf, tick);
    assert NewRequest(before, buf[..]);
    FreshValidates(before, buf[..]);
    FreshChecks(before, buf[..]);
    var size := Word(buf[..], 4);
    request := buf[..size];
    var sent, moved := WriteNonblocking(sock, buf, size);
    ok := sent == size;
  }

  /** The first of the messages on the stream is what the client receives, and then the others are left. */
  lemma HeadReceived(buf: seq<byte>, ms: seq<Message>, rest: seq<byte>)
    requires |buf| == MAX_MSG_SIZE && AllDelimited(ms) && ms != []
    ensures var stream, m := Wire(ms) + rest, ms[0];
            && Response(buf, stream).Counted? && Response(buf, stream).size == |m| <= |stream|
            && Cut(Arrived(buf, stream, |m|), |m|) == m && stream[|m|..] == Wire(ms[1..]) + rest
  {
    var m, behind := ms[0], Wire(ms[1..]) + rest;
    assert Wire(ms) + rest == m + behind;
    WholeMessage(buf, m, behind);
  }

  /** ReceiveResponse on a stream of messages: m is what it received, ahead and tail what is still there. */
  method ReceiveNext(sock: Socket, buf: array<byte>, ghost ms: seq<Message>, ghost rest: seq<byte>)
    returns (res: Received, ghost failed: bool, ghost m: Message, ghost ahead: seq<Message>, ghost tail: seq<byte>)
    requires buf.Length == MAX_MSG_SIZE
    requires AllDelimited(ms) && sock.incoming == Wire(ms) + rest
    modifies sock`incoming, sock`answers, buf
    ensures res.Counted? ==> m == Cut(buf[..], res.size) && |m| == res.size && (res.verdict == Valid <==> Checks(m))
    ensures res.Counted? ==> sock.incoming == Wire(ahead) + tail
    ensures res.Counted? ==> if ms == [] then ahead == [] else ms == [m] + ahead && tail == rest
    ensures AllDelimited(ahead)
    ensures Consumed(old(sock.answers), sock.answers, failed)
    ensures if failed then res.Lost? else ms != [] ==> res.Counted?
  {
    if ms != [] {
      HeadReceived(buf[..], ms, rest);
    }
    res, failed := ReceiveResponse(sock, buf);
    m := Cut(buf[..], if res.Counted? then res.size else 0);
    if res.Counted? {
      FrontDecides(m, buf[..]);
    }
    ahead, tail := if ms == [] then [] else ms[1..], if ms == [] then sock.incoming else rest;
  }

  /** One round: a request out, a response in. */
  method Round(sock: Socket, buf: array<byte>, tick: Tick, ghost ms: seq<Message>, ghost rest: seq<byte>)
    returns (res: Received, ghost failed: bool, ghost request: Message, ghost m: Message, ghost ahead: seq<Message>,
             ghost tail: seq<byte>)
    requires buf.Length == MAX_MSG_SIZE
    requires AllDelimited(ms) && sock.incoming == Wire(ms) + rest
    modifies sock, buf
    ensures AllCheck([request]) && AllDelimited([request])
    ensures if res.Counted? then sock.outgoing == old(sock.outgoing) + request else old(sock.outgoing) <= sock.outgoing
    ensures res.Counted? ==> m == Cut(buf[..], res.size) && |m| == res.size && (res.verdict == Valid <==> Checks(m))
    ensures res.Counted? ==> sock.incoming == Wire(ahead) + tail
    ensures res.Counted? ==> if ms == [] then ahead == [] else ms == [m] + ahead && tail == rest
    ensures AllDelimited(ahead)
    ensures Consumed(old(sock.answers), sock.answers, failed)
    ensures if failed then res.Lost? else ms != [] ==> res.Counted?
  {
    var ok;
    ok, request := SendRequest(sock, buf, tick);
    if !ok {
      return Lost, true, request, [], [], [];
    }
    ghost var between := sock.answers;
    res, failed, m, ahead, tail := ReceiveNext(sock, buf, ms, rest);
    ThenConsumed(old(sock.answers), between, sock.answers, failed);
  }

  lemma Onward(got: seq<Message>, m: Message, ahead: seq<Message>, ahead': seq<Message>)
    requires ahead == [m] + ahead'
    ensures (got + [m]) + ahead' == got + ahead
  {
  }

  lemma Parts(ms: seq<Message>, got: seq<Message>, ahead: seq<Message>)
    ensures got + ahead == ms ==> got <= ms && ms[..|got|] == got && ms[|got|..] == ahead
  {
  }

  lemma EmittedOn(before: seq<byte>, sent: seq<Message>, request: Message)
    ensures (before + Wire(sent)) + request == before + Wire(sent + [request])
  {
    WireAppend(sent, request);
    assert (before + Wire(sent)) + request == before + (Wire(sent) + request);
  }

  lemma AllCheckAppend(sent: seq<Message>, request: Message)
    requires AllCheck(sent) && AllCheck([request]) && AllDelimited(sent) && AllDelimited([request])
    ensures AllCheck(sent + [request]) && AllDelimited(sent + [request])
  {
    assert Checks([request][0]) && Delimited([request][0]);
  }

  /** What the peer sends is, in all, what the client emitted: then each reply is its request. */
  lemma EchoedAll(ms: seq<Message>, sent: seq<Message>, got: seq<Message>)
    requires AllDelimited(ms) && AllDelimited(sent) && (got <= ms || ms <= got) && |got| == |sent|
    ensures Wire(ms) == Wire(sent) ==> got == sent
  {
    if Wire(ms) == Wire(sent) {
      WireInjective(ms, sent);
    }
  }

  /** The loop, one round for each tick. On a stream of messages ms, whatever else follows, it receives
      exactly ms and emits exactly its requests, one for one, under every schedule without a fatal answer. It
      stops at the first fatal answer (failed), with the rounds before it counted. Under every schedule, if
      ms is an echo of what it emitted, each reply is its request. */
  method RunClient(sock: Socket, buf: array<byte>, ticks: seq<Tick>, ghost ms: seq<Message>, ghost rest: seq<byte>)
    returns (ops: nat, bytes: nat, latencies: nat,
             ghost failed: bool, ghost sent: seq<Message>, ghost got: seq<Message>)
    requires buf.Length == MAX_MSG_SIZE
    requires AllDelimited(ms) && sock.incoming == Wire(ms) + rest
    modifies sock, buf
    ensures |got| == ops == |sent| && bytes == Total(got)
    ensures latencies == Min(ops, MAX_LATENCIES)
    ensures old(sock.outgoing) + Wire(sent) <= sock.outgoing
    ensures AllCheck(sent) && AllDelimited(sent)
    ensures Wire(ms) == Wire(sent) ==> got == sent
    ensures got <= ms || ms <= got
    ensures Consumed(old(sock.answers), sock.answers, failed)
    ensures if failed then ops < |ticks| else ops == |ticks| || |ms| <= ops
    ensures ops == |ticks| <= |ms| ==>
              && got == ms[..ops]
              && sock.incoming == Wire(ms[ops..]) + rest && sock.outgoing == old(sock.outgoing) + Wire(sent)
    ensures Benign(old(sock.answers)) ==> !failed && (|ticks| <= |ms| ==> ops == |ticks|)
  {
    ops, bytes, latencies, failed, sent, got := 0, 0, 0, false, [], [];
    ghost var ahead, tail := ms, rest;  // what is still on the stream
    for i := 0 to |ticks|
      invariant |got| == ops == |sent| == i && bytes == Total(got)
      invariant sock.outgoing == old(sock.outgoing) + Wire(sent)
      invariant latencies == Min(ops, MAX_LATENCIES)
      invariant AllCheck(sent) && AllDelimited(sent) && AllDelimited(ahead)
      invariant sock.incoming == Wire(ahead) + tail
      invariant if i <= |ms| then got + ahead == ms && tail == rest else ms <= got && ahead == []
      invariant !failed && Consumed(old(sock.answers), sock.answers, false)
    {
      ghost var between := sock.answers;
      var res;
      ghost var request, m, ahead', tail';
      res, failed, request, m, ahead', tail' := Round(sock, buf, ticks[i], ahead, tail);
      ThenConsumed(old(sock.answers), between, sock.answers, failed);
      if !res.Counted? {
        break;
      }
      EmittedOn(old(sock.outgoing), sent, request);
      AllCheckAppend(sent, request);
      TotalAppend(got, m);
      if ahead != [] { Onward(got, m, ahead, ahead'); }
      sent, got, ahead, tail := sent + [request], got + [m], ahead', tail';
      if latencies < MAX_LATENCIES {
        latencies := latencies + 1;
      }
      ops, bytes := ops + 1, bytes + res.size;
    }
    Parts(ms, got, ahead);
    EchoedAll(ms, sent, got);
    if Benign(old(sock.answers)) { BenignConsumed(old(sock.answers), sock.answers, failed); }
  }
}
