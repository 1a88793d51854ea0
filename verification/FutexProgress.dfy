/** The lock-free echo never loses a wakeup and never stalls: a rank falls with every step until the
    client counts an operation. */
module FutexProgress {
  import opened Bytes
  import opened FutexControl

  /** No process has a step left. */
  predicate Stuck(k: Control) {
    (k.c.CAsleep? || k.c.CExit?) && (k.s.SAsleep? || k.s.SDone?)
  }

  /** Neither side ever waits for the other in vain: the only way to stop is that the client has left,
      and then a server that waits for one more request waits for ever. */
  lemma StuckOnlyAfterClientExit(k: Control)
    requires ControlInv(k)
    ensures Stuck(k) <==> k.c.CExit? && (k.s.SAsleep? || k.s.SDone?)
  {
  }

  /** Steps outside the wait loops the client has before it counts its operation, weighted. */
  function CMajor(c: Client): nat {
    match c
    case CTop => 31
    case CWriting => 30
    case CSet => 29
    case CInc => 7
    case CWake => 6
    case CReady => 5
    case CReading => 3
    case CClear => 2
    case CCount => 1
    case CExit => 0
    case _ => 4
  }

  /** The same for the server, which on its turn goes once around its loop. */
  function SMajor(s: Server, turn: bool): nat {
    match s
    case SDone => 0
    case SOwnWake => 1
    case SOwnInc => 2
    case SOwnSet => 3
    case SFinWake => 4
    case SFinInc => 5
    case SFinSet => 6
    case SReady => 7
    case STop => if turn then 28 else 8
    case SWake => if turn then 29 else 9
    case SInc => if turn then 30 else 10
    case SSet => 11
    case SWriting => 12
    case SClear => 13
    case SReading => 14
    case _ => if turn then 20 else 0
  }

  /** Steps left inside a wait loop before sleeping or seeing the condition. A word that has moved on
      costs another round of the loop. */
  function CMinor(k: Control): nat {
    match k.c
    case CTest => if k.b.respAvail then 0 else 4
    case CWord => if k.b.respAvail then 2 else 3
    case CRecheck => if k.b.respAvail then 1 else if k.cw.val == k.cw.incs then 2 else 7
    case CWait => if k.b.respAvail then 1 else if k.cw.val == k.cw.incs then 1 else 6
    case _ => 0
  }

  function SMinor(k: Control): nat {
    match k.s
    case STest => if k.b.msgAvail then 0 else 4
    case SWord => if k.b.msgAvail then 2 else 3
    case SRecheck => if k.b.msgAvail then 1 else if k.sw.val == k.sw.incs then 2 else 7
    case SWait => if k.b.msgAvail then 1 else if k.sw.val == k.sw.incs then 1 else 6
    case _ => 0
  }

  function Rank(k: Control): (r: nat)
    ensures r <= 990
  {
    16 * (CMajor(k.c) + SMajor(k.s, k.b.turn)) + CMinor(k) + SMinor(k)
  }

  /** Inside a wait loop the rank falls by the loop's own steps; outside by the program's. */
  lemma ClientWaits(k: Control, k': Control)
    requires Turns(k) && Flags(k) && Gaps(k) && ClientNext(k, k', true) && CWaiting(k.c)
    ensures k'.tally.ops == k.tally.ops && Rank(k') < Rank(k)
  {
    if k.c.CWait? { NoStaleMatch(k.cw.incs, k.cw.val); }
  }

  lemma ClientAdvances(k: Control, k': Control)
    requires Turns(k) && Flags(k) && ClientNext(k, k', true) && !CWaiting(k.c)
    ensures k'.tally.ops == k.tally.ops + (if k.c.CCount? then 1 else 0)
    ensures k'.tally.ops == k.tally.ops ==> Rank(k') < Rank(k)
  {
  }

  lemma ServerWaits(k: Control, k': Control)
    requires Turns(k) && Flags(k) && Gaps(k) && ServerNext(k, k', true) && SWaiting(k.s)
    ensures k'.tally.ops == k.tally.ops && Rank(k') < Rank(k)
  {
    if k.s.SWait? { NoStaleMatch(k.sw.incs, k.sw.val); }
  }

  lemma ServerAdvances(k: Control, k': Control)
    requires Turns(k) && Flags(k) && ServerNext(k, k', true) && !SWaiting(k.s) && !Closing(k.s)
    ensures k'.tally.ops == k.tally.ops && Rank(k') < Rank(k)
  {
  }

  lemma ServerCloses(k: Control, k': Control)
    requires Turns(k) && Flags(k) && ServerNext(k, k', true) && Closing(k.s)
    ensures k'.tally.ops == k.tally.ops && Rank(k') < Rank(k)
  {
  }

  /** Every step either counts an operation or lowers the rank. */
  lemma Progress(k: Control, k': Control)
    requires ControlInv(k) && (ClientNext(k, k', true) || ServerNext(k, k', true))
    ensures if k'.tally.ops == k.tally.ops then Rank(k') < Rank(k) else k'.tally.ops == k.tally.ops + 1
  {
    if ClientNext(k, k', true) {
      if CWaiting(k.c) { ClientWaits(k, k'); } else { ClientAdvances(k, k'); }
    } else if SWaiting(k.s) {
      ServerWaits(k, k');
    } else if Closing(k.s) {
      ServerCloses(k, k');
    } else {
      ServerAdvances(k, k');
    }
  }
}
