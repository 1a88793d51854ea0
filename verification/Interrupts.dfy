/** Wake-up channels between threads (interrupt.c): an eventfd, whose counter one wait empties, or a pipe,
    from which one wait takes one signal. */
module Interrupts {

  datatype Kind = EventFd | Pipe

  /** What is left after a successful wait. */
  function Consume(kind: Kind, pending: nat): nat
    requires pending > 0
  {
    if kind.EventFd? then 0 else pending - 1
  }

  class Interrupt {
    const kind: Kind
    var pending: nat

    constructor (kind: Kind)
      ensures this.kind == kind && pending == 0
    {
      this.kind, pending := kind, 0;
    }

    method Signal()
      modifies this
      ensures pending == old(pending) + 1
    {
      pending := pending + 1;
    }

    /** One read attempt of interrupt_wait or interrupt_clear: takes a value if one is there. */
    method TryRead() returns (taken: bool)
      modifies this
      ensures taken <==> old(pending) > 0
      ensures pending == if taken then Consume(kind, old(pending)) else 0
    {
      if pending == 0 {
        return false;
      }
      pending := if kind.EventFd? then 0 else pending - 1;
      return true;
    }

    /** interrupt_wait: reads, and polls when nothing is there, until a read takes a value. arrivals[i]
        signals arrive during the i-th poll, which may also return with none; where the list ends the
        caller still waits, and taken is false. */
    method Wait(arrivals: seq<nat>) returns (taken: bool)
      modifies this
      ensures taken <==> Offered(old(pending), arrivals) > 0
      ensures pending == if taken then Consume(kind, Offered(old(pending), arrivals)) else 0
    {
      var polls := 0;
      while true
        invariant polls <= |arrivals|
        invariant Offered(pending, arrivals[polls..]) == Offered(old(pending), arrivals)
        decreases |arrivals| - polls
      {
        taken := TryRead();
        if taken || polls == |arrivals| {
          return;
        }
        pending, polls := pending + arrivals[polls], polls + 1;
      }
    }
  }

  /** The signals the first successful read finds. */
  function Offered(pending: nat, arrivals: seq<nat>): nat
    decreases arrivals
  {
    if pending > 0 || arrivals == [] then pending else Offered(arrivals[0], arrivals[1..])
  }

  /** They are those pending at the start, or else those of the first poll, i, in which any arrive. */
  lemma {:induction false} OfferedExactly(pending: nat, arrivals: seq<nat>, i: nat)
    requires i <= |arrivals| && (forall j :: 0 <= j < i ==> arrivals[j] == 0) && (i < |arrivals| ==> arrivals[i] > 0)
    ensures Offered(pending, arrivals) == if pending > 0 then pending else if i < |arrivals| then arrivals[i] else 0
    decreases i
  {
    if pending == 0 && i > 0 {
      OfferedExactly(0, arrivals[1..], i - 1);
    }
  }

  /** The waits that n pending signals satisfy. */
  function Waits(kind: Kind, n: nat): nat {
    if n == 0 then 0 else 1 + Waits(kind, Consume(kind, n))
  }

  /** An eventfd makes one of any number of signals; a pipe counts them. */
  lemma {:induction false} WaitsExactly(kind: Kind, n: nat)
    ensures Waits(kind, n) == if kind.EventFd? && n > 0 then 1 else n
  {
    if kind.Pipe? && n > 0 {
      WaitsExactly(kind, n - 1);
    }
  }

  /** So the two kinds agree exactly while no second signal arrives before the first is taken. */
  lemma KindsAgree(n: nat)
    ensures Waits(EventFd, n) == Waits(Pipe, n) <==> n <= 1
  {
    WaitsExactly(EventFd, n);
    WaitsExactly(Pipe, n);
  }
}
