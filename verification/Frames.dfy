/** The byte string a queue of messages occupies in the ring: each message behind its 4-byte length. */
module Frames {
  import opened Bytes

  type Message = seq<byte>

  function Encode(m: Message): (e: seq<byte>)
    ensures |e| == 4 + |m|
  {
    Le32(|m|) + m
  }

  function EncodeAll(q: seq<Message>): (e: seq<byte>)
    ensures q == [] <==> e == []
    ensures q != [] ==> |e| >= 4 + |q[0]|
  {
    if q == [] then [] else Encode(q[0]) + EncodeAll(q[1..])
  }

  lemma {:induction false} EncodeAppend(q: seq<Message>, m: Message)
    ensures EncodeAll(q + [m]) == EncodeAll(q) + Encode(m)
  {
    if q == [] {
      assert [] + [m] == [m] && [m][1..] == [];
    } else {
      var head, tail := Encode(q[0]), q[1..];
      EncodeAppend(tail, m);
      assert (q + [m])[0] == q[0] && (q + [m])[1..] == tail + [m];
      assert head + (EncodeAll(tail) + Encode(m)) == (head + EncodeAll(tail)) + Encode(m);
    }
  }

  /** The length field reads back as the message length exactly when that length fits in 32 bits. */
  lemma HeaderExact(m: Message)
    ensures FromLe32(Encode(m)[..4]) == |m| <==> |m| < TWO32
  {
    assert Encode(m)[..4] == Le32(|m|);
    DecodeLe32(|m|);
  }

  /** What a reader finds at the front of an encoded queue. */
  lemma Front(q: seq<Message>)
    requires q != [] && |q[0]| < TWO32
    ensures var e := EncodeAll(q);
            && FromLe32(e[..4]) == |q[0]|
            && e[4..4 + |q[0]|] == q[0]
            && e[4 + |q[0]|..] == EncodeAll(q[1..])
  {
    HeaderExact(q[0]);
    assert EncodeAll(q)[..4] == Encode(q[0])[..4];
  }

  ghost predicate Short(q: seq<Message>) {
    forall k :: 0 <= k < |q| ==> |q[k]| < TWO32
  }

  /** An encoded queue of 32-bit-sized messages determines the queue: framing loses no boundary. */
  lemma {:induction false} EncodeInjective(p: seq<Message>, q: seq<Message>)
    requires Short(p) && Short(q) && EncodeAll(p) == EncodeAll(q)
    ensures p == q
  {
    if p != [] && q != [] {
      Front(p);
      Front(q);
      EncodeInjective(p[1..], q[1..]);
      assert p == [p[0]] + p[1..] && q == [q[0]] + q[1..];
    }
  }

  /** The payload bytes of a queue. */
  function Total(q: seq<Message>): nat {
    if q == [] then 0 else Total(q[..|q| - 1]) + |q[|q| - 1]|
  }

  lemma TotalAppend(q: seq<Message>, m: Message)
    ensures Total(q + [m]) == Total(q) + |m|
  {
    assert (q + [m])[..|q|] == q;
  }
}
