/** Where the bytes of a circular buffer lie, and the position arithmetic both ring forms perform on it. */
module RingLayout {
  import opened Bytes
  import opened Frames

  /** The ring index i steps after pos, for steps that go around at most once. */
  function Slot(size: nat, pos: nat, i: nat): nat {
    if pos + i < size then pos + i else pos + i - size
  }

  /** Bytes in use between two positions. Equal positions mean an empty ring. */
  function Used(size: nat, readPos: nat, writePos: nat): nat
    requires readPos <= size
  {
    if writePos >= readPos then writePos - readPos else size - (readPos - writePos)
  }

  /** The bytes of e lie in the ring from pos on. */
  ghost predicate Held(ring: seq<byte>, pos: nat, e: seq<byte>) {
    && pos <= |ring|
    && |e| <= |ring|
    && forall i: nat :: i < |e| ==> Slot(|ring|, pos, i) < |ring| && ring[Slot(|ring|, pos, i)] == e[i]
  }

  ghost predicate Positions(size: nat, readPos: nat, writePos: nat) {
    (readPos < size && writePos < size) || (readPos == writePos == 0)
  }

  /** A ring with these positions and bytes holds exactly the encoding of queue. */
  ghost predicate Holds(ring: seq<byte>, readPos: nat, writePos: nat, queue: seq<Message>) {
    var e := EncodeAll(queue);
    && Positions(|ring|, readPos, writePos)
    && Used(|ring|, readPos, writePos) == |e|
    && (e == [] || |e| + 2 <= |ring|)
    && Held(ring, readPos, e)
  }

  /** The writer's space test (shm_blocking.c:74-90) on the bytes in use. */
  predicate Fits(size: nat, used: nat, len: nat) {
    len <= size / 2 && used + len + 4 + 2 <= size
  }

  lemma HeldSplit(ring: seq<byte>, pos: nat, a: seq<byte>, b: seq<byte>)
    requires pos < |ring| && |a| + |b| <= |ring|
    ensures Held(ring, pos, a + b) <==> Held(ring, pos, a) && Held(ring, Slot(|ring|, pos, |a|), b)
  {
    var mid := Slot(|ring|, pos, |a|);
    if Held(ring, pos, a + b) {
      forall i: nat | i < |a| ensures ring[Slot(|ring|, pos, i)] == a[i] {
        assert (a + b)[i] == a[i];
      }
      forall i: nat | i < |b| ensures ring[Slot(|ring|, mid, i)] == b[i] {
        assert Slot(|ring|, mid, i) == Slot(|ring|, pos, |a| + i);
        assert (a + b)[|a| + i] == b[i];
      }
    }
    if Held(ring, pos, a) && Held(ring, mid, b) {
      forall i: nat | i < |a + b| ensures ring[Slot(|ring|, pos, i)] == (a + b)[i] {
        if i >= |a| {
          assert Slot(|ring|, mid, i - |a|) == Slot(|ring|, pos, i);
        }
      }
    }
  }

  /** A message laid down behind a queue still in place is appended to it. */
  lemma Appended(ring: seq<byte>, readPos: nat, writePos: nat, queue: seq<Message>, m: Message)
    requires Positions(|ring|, readPos, writePos)
    requires Used(|ring|, readPos, writePos) == |EncodeAll(queue)|
    requires Fits(|ring|, |EncodeAll(queue)|, |m|)
    requires Held(ring, readPos, EncodeAll(queue)) && Held(ring, writePos, Encode(m))
    ensures Holds(ring, readPos, Slot(|ring|, writePos, 4 + |m|), queue + [m])
  {
    EncodeAppend(queue, m);
    HeldSplit(ring, readPos, EncodeAll(queue), Encode(m));
  }

  /** Moving the read position over the first message pops it and leaves the rest in place. */
  lemma Popped(ring: seq<byte>, readPos: nat, writePos: nat, queue: seq<Message>)
    requires Holds(ring, readPos, writePos, queue) && queue != []
    ensures Holds(ring, Slot(|ring|, readPos, 4 + |queue[0]|), writePos, queue[1..])
  {
    HeldSplit(ring, readPos, Encode(queue[0]), EncodeAll(queue[1..]));
  }

  /** What the front of a non-empty ring holds: the length field, then the first message. */
  lemma FrontBytes(ring: seq<byte>, readPos: nat, writePos: nat, queue: seq<Message>)
    requires Holds(ring, readPos, writePos, queue) && queue != []
    ensures 4 + |queue[0]| + 2 <= |ring|
    ensures Held(ring, readPos, Le32(|queue[0]|)) && Held(ring, Slot(|ring|, readPos, 4), queue[0])
  {
    HeldSplit(ring, readPos, Encode(queue[0]), EncodeAll(queue[1..]));
    HeldSplit(ring, readPos, Le32(|queue[0]|), queue[0]);
  }

  /** Bytes change only in [pos, pos + n) around the ring. */
  ghost predicate OnlyWithin(before: seq<byte>, after: seq<byte>, pos: nat, n: nat) {
    && |after| == |before|
    && forall k :: 0 <= k < |before| && !(pos <= k < pos + n) && !(k < pos + n - |before|) ==> after[k] == before[k]
  }

  /** A queue in use is untouched by bytes that change only in the free space behind it. */
  lemma StillHeld(before: seq<byte>, after: seq<byte>, readPos: nat, e: seq<byte>, n: nat)
    requires Held(before, readPos, e) && readPos < |before| && |e| + n <= |before|
    requires OnlyWithin(before, after, Slot(|before|, readPos, |e|), n)
    ensures Held(after, readPos, e)
  {
    forall i: nat | i < |e| ensures after[Slot(|after|, readPos, i)] == e[i] {
      assert before[Slot(|before|, readPos, i)] == e[i];
    }
  }

  /** The two copies of a write, length then payload, leave the message appended to the queue. */
  lemma Written(
    r0: seq<byte>, r1: seq<byte>, r2: seq<byte>, readPos: nat, writePos: nat, queue: seq<Message>, m: Message)
    requires Holds(r0, readPos, writePos, queue) && Fits(|r0|, |EncodeAll(queue)|, |m|)
    requires OnlyWithin(r0, r1, writePos, 4) && Held(r1, writePos, Le32(|m|))
    requires OnlyWithin(r1, r2, Slot(|r0|, writePos, 4), |m|) && Held(r2, Slot(|r0|, writePos, 4), m)
    ensures Holds(r2, readPos, Slot(|r0|, Slot(|r0|, writePos, 4), |m|), queue + [m])
  {
    var e := EncodeAll(queue);
    StillHeld(r0, r1, readPos, e, 4);
    assert OnlyWithin(r0, r2, writePos, 4 + |m|);
    StillHeld(r0, r2, readPos, e, 4 + |m|);
    StillHeld(r1, r2, writePos, Le32(|m|), |m|);
    HeldSplit(r2, writePos, Le32(|m|), m);
    Appended(r2, readPos, writePos, queue, m);
  }

  /** What one read finds and leaves, whatever the length of the first message: the length field holds
      that length modulo 2^32, and the rest is a framed queue again exactly when nothing was cut off. */
  lemma ReadFront(ring: seq<byte>, readPos: nat, writePos: nat, queue: seq<Message>)
    requires Holds(ring, readPos, writePos, queue) && queue != []
    ensures var n := U32(|queue[0]|);
            && n <= |queue[0]| && 4 + |queue[0]| + 2 <= |ring| && readPos < |ring|
            && Held(ring, readPos, Le32(|queue[0]|)) && FromLe32(Le32(|queue[0]|)) == n
            && Held(ring, Slot(|ring|, readPos, 4), queue[0][..n])
            && (Holds(ring, Slot(|ring|, Slot(|ring|, readPos, 4), n), writePos, queue[1..]) <==> |queue[0]| < TWO32)
  {
    var m, p := queue[0], Slot(|ring|, readPos, 4);
    var n := U32(|m|);
    DecodeLe32(|m|);
    FrontBytes(ring, readPos, writePos, queue);
    Popped(ring, readPos, writePos, queue);
    assert m[..n] + m[n..] == m;
    HeldSplit(ring, p, m[..n], m[n..]);
    if n < |m| {
      assert Used(|ring|, Slot(|ring|, p, n), writePos) == |EncodeAll(queue)| - 4 - n;
    }
  }
}
