/** The ring of the lock-free variants, with 32-bit positions (lfshm_blocking.c:120-236), run by one
    thread at a time. Sums and differences of two `uint32_t` wrap; those with a `size_t` do not. */
module LockFreeRing {
  import opened Bytes
  import opened Frames
  import opened RingLayout
  import B = BlockingRing

  /** The sizes for which the 32-bit sum of a position and a message length cannot wrap. */
  predicate Fits32(size: nat) {
    size + size / 2 <= TWO32
  }

  /** The payload ends past the ring, but the wrapped sum does not say so. */
  predicate Misses(size: nat, p: nat, n: nat) {
    p < size && n <= size / 2 && p + n > size && !(U32(p + n) > size)
  }

  /** On rings a 32-bit position can address, the wrap test at lfshm_blocking.c:154 misses a copy that
      leaves the ring, for some position and accepted length, exactly when the size is too large. */
  lemma WrapTestExact(size: nat)
    requires size <= TWO32
    ensures (exists p: nat, n: nat :: Misses(size, p, n)) <==> !Fits32(size)
  {
    if !Fits32(size) {
      var p, n := size - 1, size / 2;
      assert U32(p + n) == p + n - TWO32;
      assert Misses(size, p, n);
    }
  }

  /** Where the test does not miss, the wrapped sum says what the true one does. */
  lemma SumTells(size: nat, p: nat, n: nat)
    requires p < size <= TWO32 && n <= size / 2 && !Misses(size, p, n)
    ensures U32(p + n) > size <==> p + n > size
  {
  }

  function Pow2(k: nat): (p: nat)
    ensures p > 0
  {
    if k == 0 then 1 else 2 * Pow2(k - 1)
  }

  lemma {:induction false} Pow2Grows(j: nat, k: nat)
    requires j <= k
    ensures Pow2(j) <= Pow2(k)
    decreases k
  {
    if j < k {
      Pow2Grows(j, k - 1);
    }
  }

  lemma Pow2Plus8(k: nat)
    ensures Pow2(k + 8) == 256 * Pow2(k)
  {
    assert Pow2(k + 2) == 4 * Pow2(k);
    assert Pow2(k + 4) == 4 * Pow2(k + 2);
    assert Pow2(k + 6) == 4 * Pow2(k + 4);
    assert Pow2(k + 8) == 4 * Pow2(k + 6);
  }

  lemma Pow2Of31()
    ensures Pow2(31) == 0x8000_0000 && Pow2(32) == TWO32
  {
    assert Pow2(7) == 128;
    Pow2Plus8(7);
    Pow2Plus8(15);
    Pow2Plus8(23);
  }

  /** Setup rounds sizes up to powers of two: those up to 2^31, and no larger one, are safe. */
  lemma PowerOfTwoSizes(k: nat)
    ensures Fits32(Pow2(k)) <==> k <= 31
  {
    Pow2Of31();
    if k <= 31 {
      Pow2Grows(k, 31);
    } else {
      Pow2Grows(32, k);
    }
  }

  class Ring {
    const size: nat
    const buffer: array<byte>
    var readPos: nat
    var writePos: nat
    ghost var queue: seq<Message>

    ghost predicate Valid()
      reads this, buffer
    {
      && size <= TWO32 && buffer.Length == size
      && Holds(buffer[..], readPos, writePos, queue)
      && forall k :: 0 <= k < |queue| ==> |queue[k]| <= size / 2
    }

    constructor (size: nat)
      requires size <= TWO32
      ensures Valid() && queue == [] && this.size == size && readPos == writePos == 0 && fresh(buffer)
    {
      this.size := size;
      buffer := new byte[size];
      readPos, writePos, queue := 0, 0, [];
    }

    method CopyIn(wp: nat, src: array<byte>, n: nat) returns (next: nat)
      requires buffer.Length == size <= TWO32 && wp < size && n <= size && n <= src.Length && src != buffer
      modifies buffer
      ensures next == Slot(size, wp, n)
      ensures Held(buffer[..], wp, src[..n])
      ensures OnlyWithin(old(buffer[..]), buffer[..], wp, n)
    {
      if wp + n > size {
        var firstChunk := size - wp;
        B.Memcpy(buffer, wp, src, 0, firstChunk);
        B.Memcpy(buffer, 0, src, firstChunk, n - firstChunk);
        next := U32(n - firstChunk);
      } else {
        B.Memcpy(buffer, wp, src, 0, n);
        next := U32(wp + n);
        if next == size {
          next := 0;
        }
      }
    }

    /** `sum` is the end of the copy as the caller computed it: 64 bits wide for the length field
        (line 133), 32 bits wide for the payload (line 154). */
    method CopyOut(rp: nat, dst: array<byte>, n: nat, sum: nat, ghost e: seq<byte>) returns (next: nat)
      requires buffer.Length == size <= TWO32 && rp < size && n <= size && n <= dst.Length && dst != buffer
      requires Held(buffer[..], rp, e) && |e| == n && (sum > size <==> rp + n > size)
      modifies dst
      ensures next == Slot(size, rp, n)
      ensures dst[..] == e + old(dst[..])[n..]
    {
      if sum > size {
        var firstChunk := size - rp;
        B.Memcpy(dst, 0, buffer, rp, firstChunk);
        B.Memcpy(dst, firstChunk, buffer, 0, n - firstChunk);
        next := U32(n - firstChunk);
      } else {
        B.Memcpy(dst, 0, buffer, rp, n);
        next := U32(rp + n);
        if next == size {
          next := 0;
        }
      }
      forall i: nat | i < n ensures dst[i] == e[i] {
        assert buffer[..][Slot(size, rp, i)] == e[i];
      }
    }

    method Write(data: array<byte>, len: nat) returns (ok: bool)
      requires Valid() && len <= data.Length && data != buffer
      modifies this, buffer
      ensures Valid() && readPos == old(readPos)
      ensures ok <==> len <= size / 2 && |EncodeAll(old(queue))| + len + 4 <= size - 2
      ensures ok ==> queue == old(queue) + [data[..len]]
      ensures !ok ==> unchanged(this) && unchanged(buffer)
    {
      if len > size / 2 {
        return false;
      }
      var available: nat;
      if writePos >= readPos {
        available := size - U32(writePos - readPos);
      } else {
        available := U32(readPos - writePos);
      }
      if available <= len + 4 + 1 {
        return false;
      }
      var msgLen := U32(len);
      var lenBytes := new byte[4](i requires 0 <= i < 4 => Le32(msgLen)[i]);
      assert lenBytes[..4] == Le32(len);
      var wp := CopyIn(writePos, lenBytes, 4);
      ghost var between := buffer[..];
      wp := CopyIn(wp, data, len);
      Written(old(buffer[..]), between, buffer[..], readPos, writePos, queue, data[..len]);
      writePos := wp;
      queue := queue + [data[..len]];
      return true;
    }

    /** The next read would take a payload that goes around the ring for one that does not. */
    ghost predicate Overruns(maxLen: nat)
      reads this
    {
      queue != [] && |queue[0]| <= maxLen && Misses(size, Slot(size, readPos, 4), |queue[0]|)
    }

    /** Where the wrap test misses, the copy would leave the ring: nothing is modelled there. */
    method Read(data: array<byte>, maxLen: nat) returns (ok: bool, bytesRead: nat)
      requires Valid() && maxLen <= data.Length && data != buffer
      requires !Overruns(maxLen)
      modifies this, data
      ensures Valid() && writePos == old(writePos)
      ensures ok <==> old(queue) != [] && |old(queue)[0]| <= maxLen
      ensures ok ==> queue == old(queue)[1..] && bytesRead == |old(queue)[0]|
      ensures ok ==> data[..] == old(queue)[0] + old(data[..])[bytesRead..]
      ensures !ok ==> bytesRead == 0 && unchanged(this) && unchanged(data)
    {
      if readPos == writePos {
        return false, 0;
      }
      ReadFront(buffer[..], readPos, writePos, queue);
      var lenBytes := new byte[4];
      var rp := CopyOut(readPos, lenBytes, 4, readPos + 4, Le32(|queue[0]|));
      var msgLen := FromLe32(lenBytes[..]);
      if msgLen > maxLen {
        return false, 0;
      }
      assert msgLen == |queue[0]| && queue[0][..msgLen] == queue[0];
      SumTells(size, rp, msgLen);
      rp := CopyOut(rp, data, msgLen, U32(rp + msgLen), queue[0]);
      readPos := rp;
      queue := queue[1..];
      return true, msgLen;
    }
  }

  /** A message of n bytes through an empty ring that has room for it before its end. */
  method Pass(r: Ring, n: nat)
    requires r.Valid() && r.queue == [] && n <= r.size / 2 && r.readPos + n + 6 <= r.size
    modifies r, r.buffer
    ensures r.Valid() && r.queue == [] && r.readPos == old(r.readPos) + 4 + n
  {
    var data := new byte[n];
    assert EncodeAll([data[..n]]) == Encode(data[..n]) + EncodeAll([]);
    var wrote := r.Write(data, n);
    assert r.queue == [data[..n]];
    assert r.writePos == r.readPos + 4 + n;
    var back := new byte[n];
    var read, k := r.Read(back, n);
  }

  /** On every size the wrap test is not safe for, ordinary calls lead to a message that Write accepts and
      whose Read would run over the end of the ring: three messages suffice. */
  method ReachOverrun(size: nat) returns (r: Ring)
    requires size <= TWO32 && !Fits32(size)
    ensures fresh(r) && r.Valid() && r.size == size && r.Overruns(size / 2)
  {
    var half := size / 2;
    r := new Ring(size);
    Pass(r, half);
    Pass(r, size - half - 13);
    var data := new byte[half];
    assert EncodeAll([]) == [];
    var wrote := r.Write(data, half);
    assert Misses(size, size - 1, half);
  }

  datatype Op = Put(data: Message) | Get(maxLen: nat)
  datatype Outcome = Outcome(ok: bool, bytes: Message)

  /** What a bounded queue of messages answers to one call, and the queue it leaves. */
  function QueueStep(size: nat, q: seq<Message>, op: Op): (seq<Message>, Outcome) {
    match op
    case Put(m) =>
      if Fits(size, |EncodeAll(q)|, |m|) then (q + [m], Outcome(true, [])) else (q, Outcome(false, []))
    case Get(maxLen) =>
      if q != [] && |q[0]| <= maxLen then (q[1..], Outcome(true, q[0])) else (q, Outcome(false, []))
  }

  /** The queue takes a message exactly if it is at most half the ring and two bytes stay free, and gives its
      first exactly if there is one within the limit. */
  lemma QueueAnswers(size: nat, q: seq<Message>, m: Message, max: nat)
    ensures QueueStep(size, q, Put(m)).1.ok <==> |m| <= size / 2 && |EncodeAll(q)| + |m| + 4 <= size - 2
    ensures QueueStep(size, q, Get(max)).1.ok <==> q != [] && |q[0]| <= max
  {
  }

  function QueueAfter(size: nat, ops: seq<Op>): seq<Message> {
    if ops == [] then []
    else QueueStep(size, QueueAfter(size, ops[..|ops| - 1]), ops[|ops| - 1]).0
  }

  function QueueRun(size: nat, ops: seq<Op>): (out: seq<Outcome>)
    ensures |out| == |ops|
  {
    if ops == [] then []
    else
      var before := ops[..|ops| - 1];
      QueueRun(size, before) + [QueueStep(size, QueueAfter(size, before), ops[|ops| - 1]).1]
  }

  /** The messages accepted, or handed out, over a run. */
  function Passed(ops: seq<Op>, out: seq<Outcome>, put: bool): seq<Message>
    requires |ops| == |out|
  {
    if ops == [] then []
    else
      var n := |ops| - 1;
      Passed(ops[..n], out[..n], put) +
      (if !out[n].ok || ops[n].Put? != put then [] else if put then [ops[n].data] else [out[n].bytes])
  }

  /** One more call, on a queue whose bytes leave two free. */
  lemma StepPasses(size: nat, q: seq<Message>, op: Op)
    requires q == [] || |EncodeAll(q)| + 2 <= size
    ensures var (q', out) := QueueStep(size, q, op);
            && q + (if out.ok && op.Put? then [op.data] else []) == (if out.ok && op.Get? then [out.bytes] else []) + q'
            && (q' == [] || |EncodeAll(q')| + 2 <= size)
  {
    if op.Put? {
      EncodeAppend(q, op.data);
    } else if q != [] {
      assert q == [q[0]] + q[1..];
    }
  }

  lemma Reassociate(p: seq<Message>, q: seq<Message>, x: seq<Message>, y: seq<Message>, q': seq<Message>)
    requires q + x == y + q'
    ensures (p + q) + x == (p + y) + q'
  {
    assert (p + q) + x == p + (q + x);
    assert (p + y) + q' == p + (y + q');
  }

  /** First in, first out, nothing lost: what went in is what came out followed by what is left,
      and the bytes left never exceed size - 2. */
  lemma {:induction false} FirstInFirstOut(size: nat, ops: seq<Op>)
    ensures var out := QueueRun(size, ops);
            && Passed(ops, out, true) == Passed(ops, out, false) + QueueAfter(size, ops)
            && (QueueAfter(size, ops) == [] || |EncodeAll(QueueAfter(size, ops))| + 2 <= size)
  {
    if ops != [] {
      var n := |ops| - 1;
      var before, out := ops[..n], QueueRun(size, ops);
      FirstInFirstOut(size, before);
      assert out[..n] == QueueRun(size, before);
      var q := QueueAfter(size, before);
      var (q', o) := QueueStep(size, q, ops[n]);
      StepPasses(size, q, ops[n]);
      Reassociate(Passed(before, out[..n], false), q, if o.ok && ops[n].Put? then [ops[n].data] else [],
                  if o.ok && ops[n].Get? then [o.bytes] else [], q');
    }
  }

  /** One call made on both forms. */
  method Both(a: B.Ring, b: Ring, op: Op) returns (wide: Outcome, narrow: Outcome)
    requires a.Valid() && b.Valid() && Fits32(b.size) && a.size == b.size && a.queue == b.queue && a.buffer != b.buffer
    modifies a, a.buffer, b, b.buffer
    ensures a.Valid() && b.Valid()
    ensures a.queue == b.queue == QueueStep(a.size, old(a.queue), op).0
    ensures wide == narrow == QueueStep(a.size, old(a.queue), op).1
  {
    match op
    case Put(data) =>
      var src := new byte[|data|](k requires 0 <= k < |data| => data[k]);
      assert src[..|data|] == data;
      var okA := a.Write(src, |data|);
      var okB := b.Write(src, |data|);
      wide, narrow := Outcome(okA, []), Outcome(okB, []);
    case Get(maxLen) =>
      var dstA := new byte[maxLen];
      var dstB := new byte[maxLen];
      assert a.queue != [] ==> U32(|a.queue[0]|) == |a.queue[0]|;
      var okA, nA := a.Read(dstA, maxLen);
      var okB, nB := b.Read(dstB, maxLen);
      assert okA ==> dstA[..nA] == dstA[..][..nA] == old(a.queue)[0] && dstB[..nB] == dstB[..][..nB] == old(a.queue)[0];
      wide, narrow := Outcome(okA, dstA[..nA]), Outcome(okB, dstB[..nB]);
  }

  /** Driven by the same calls from empty rings, both forms answer as the bounded queue does. */
  method Lockstep(size: nat, ops: seq<Op>) returns (wide: seq<Outcome>, narrow: seq<Outcome>)
    requires Fits32(size)
    ensures wide == narrow == QueueRun(size, ops)
  {
    var a := new B.Ring(size);
    var b := new Ring(size);
    wide, narrow := [], [];
    for i := 0 to |ops|
      invariant a.Valid() && b.Valid() && a.size == b.size == size && a.buffer != b.buffer
      invariant a.queue == b.queue == QueueAfter(size, ops[..i])
      invariant fresh(a) && fresh(a.buffer) && fresh(b) && fresh(b.buffer)
      invariant wide == narrow == QueueRun(size, ops[..i])
    {
      assert ops[..i + 1][..i] == ops[..i];
      var x, y := Both(a, b, ops[i]);
      wide, narrow := wide + [x], narrow + [y];
    }
    assert ops[..|ops|] == ops;
  }
}
