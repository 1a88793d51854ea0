/** Building and checking benchmark messages (benchmark.c:64-135). On LP64 the header occupies 32 bytes
    but the payload starts at offset 28, so the last four bytes a message claims are never written. */
module Messages {
  import opened Bytes
  import opened Config
  import opened Generator

  const SIZEOF_MESSAGE := 32
  const DATA := 28
  const MAGIC_START: nat := 0xDEADBEEF
  const MAGIC_END: nat := 0xCAFEBABE

  // ---- checksum ----

  /** A 32-bit rotation to the left by one: the shifted-out bit comes back at the bottom. */
  function RotateLeft(x: nat): nat {
    U32(2 * x) + x / 0x8000_0000
  }

  /** The top bit goes to the bottom, and the others move up by one. */
  lemma RotateExactly(x: nat)
    requires x < TWO32
    ensures RotateLeft(x) < TWO32 && RotateLeft(x) % 2 == x / 0x8000_0000 && RotateLeft(x) / 2 == x % 0x8000_0000
  {
  }

  function ChecksumStep(sum: nat, b: byte): (r: nat)
    ensures r < TWO32
  {
    U32(RotateLeft(sum) + b)
  }

  function ChecksumFrom(sum: nat, data: seq<byte>): (r: nat)
    requires sum < TWO32
    ensures r < TWO32
    decreases data
  {
    if data == [] then sum else ChecksumFrom(ChecksumStep(sum, data[0]), data[1..])
  }

  function Checksum(data: seq<byte>): nat {
    ChecksumFrom(0, data)
  }

  lemma {:induction false} ChecksumAppend(sum: nat, x: seq<byte>, y: seq<byte>)
    requires sum < TWO32
    ensures ChecksumFrom(sum, x + y) == ChecksumFrom(ChecksumFrom(sum, x), y)
    decreases x
  {
    if x == [] {
      assert x + y == y;
    } else {
      assert (x + y)[0] == x[0] && (x + y)[1..] == x[1..] + y;
      ChecksumAppend(ChecksumStep(sum, x[0]), x[1..], y);
    }
  }

  method CalculateChecksum(data: array<byte>, from: nat, len: nat) returns (sum: nat)
    requires from + len <= data.Length
    ensures sum == Checksum(data[from..from + len])
  {
    sum := 0;
    for i := 0 to len
      invariant sum == Checksum(data[from..from + i])
    {
      ghost var seen := data[from..from + i];
      assert data[from..from + i + 1] == seen + [data[from + i]];
      ChecksumAppend(0, seen, [data[from + i]]);
      sum := U32(RotateLeft(sum) + data[from + i]);
    }
  }

  /** 32-bit addition and rotation written without a remainder. */
  function Add32(x: nat, y: nat): int {
    if x + y < TWO32 then x + y else x + y - TWO32
  }

  function Rotate32(x: nat): nat {
    if x < 0x8000_0000 then 2 * x else 2 * x + 1 - (if 2 * x + 1 < TWO32 then 0 else TWO32)
  }

  lemma StepExact(s: nat, b: byte)
    requires s < TWO32
    ensures Rotate32(s) < TWO32 && RotateLeft(s) == Rotate32(s) && ChecksumStep(s, b) == Add32(Rotate32(s), b)
  {
    assert RotateLeft(s) == Rotate32(s);
  }

  /** Different sums or different bytes: one step tells the two cases apart. */
  lemma StepInjective(s: nat, t: nat, a: byte, b: byte)
    requires s < TWO32 && t < TWO32 && (s == t || a == b)
    ensures ChecksumStep(s, a) == ChecksumStep(t, b) <==> s == t && a == b
  {
    StepExact(s, a);
    StepExact(t, b);
  }

  /** From different sums, the same remaining data leads to different sums: a difference never heals. */
  lemma {:induction false} DifferencePersists(s: nat, t: nat, data: seq<byte>)
    requires s < TWO32 && t < TWO32
    ensures ChecksumFrom(s, data) == ChecksumFrom(t, data) <==> s == t
    decreases data
  {
    if data != [] {
      StepInjective(s, t, data[0], data[0]);
      DifferencePersists(ChecksumStep(s, data[0]), ChecksumStep(t, data[0]), data[1..]);
    }
  }

  /** Two data sequences with a common front and back agree exactly when their middles do. */
  lemma MiddleDecides(pre: seq<byte>, x: seq<byte>, y: seq<byte>, post: seq<byte>)
    ensures Checksum(pre + x + post) == Checksum(pre + y + post)
            <==> ChecksumFrom(Checksum(pre), x) == ChecksumFrom(Checksum(pre), y)
  {
    ChecksumAppend(0, pre + x, post);
    ChecksumAppend(0, pre + y, post);
    ChecksumAppend(0, pre, x);
    ChecksumAppend(0, pre, y);
    DifferencePersists(Checksum(pre + x), Checksum(pre + y), post);
  }

  /** Any one changed byte, in data of any length, changes the checksum. */
  lemma OneByteDetected(data: seq<byte>, i: nat, x: byte)
    requires i < |data| && x != data[i]
    ensures Checksum(data[i := x]) != Checksum(data)
  {
    var pre, post := data[..i], data[i + 1..];
    assert data == pre + [data[i]] + post && data[i := x] == pre + [x] + post;
    MiddleDecides(pre, [data[i]], [x], post);
    var s := Checksum(pre);
    assert ChecksumFrom(s, [x]) == ChecksumStep(s, x) && ChecksumFrom(s, [data[i]]) == ChecksumStep(s, data[i]);
    StepInjective(s, s, x, data[i]);
  }

  lemma SwapLinear(r: nat, a: nat, b: nat)
    requires r < TWO32 && a < b < 256
    ensures var x, y := Add32(r, a), Add32(r, b);
            Add32(Rotate32(x), b) == Add32(Rotate32(y), a) <==> b == a + 1 && x == TWO32 - 1
  {
  }

  lemma TwoSteps(s: nat, a: byte, b: byte)
    requires s < TWO32
    ensures ChecksumFrom(s, [a, b]) == Add32(Rotate32(Add32(Rotate32(s), a)), b)
  {
    var t := ChecksumStep(s, a);
    StepExact(s, a);
    StepExact(t, b);
    assert [a, b][1..] == [b] && ChecksumFrom(t, [b]) == ChecksumStep(t, b);
  }

  /** Exactly when exchanging two adjacent bytes goes unnoticed. */
  lemma SwapDetected(pre: seq<byte>, a: byte, b: byte, post: seq<byte>)
    ensures Checksum(pre + [a, b] + post) == Checksum(pre + [b, a] + post) <==>
            a == b || ((a == b + 1 || b == a + 1)
                       && U32(RotateLeft(Checksum(pre)) + (if a < b then a else b)) == TWO32 - 1)
  {
    var s := Checksum(pre);
    MiddleDecides(pre, [a, b], [b, a], post);
    TwoSteps(s, a, b);
    TwoSteps(s, b, a);
    var low := if a < b then a else b;
    StepExact(s, low);
    if a < b {
      SwapLinear(Rotate32(s), a, b);
    } else if b < a {
      SwapLinear(Rotate32(s), b, a);
    }
  }

  /** The binary digits of v, one in each byte. */
  function Digits(v: nat): seq<byte> {
    if v == 0 then [] else Digits(v / 2) + [v % 2]
  }

  /** Every 32-bit value is a checksum. */
  lemma {:induction false} EverySumReached(v: nat)
    requires v < TWO32
    ensures Checksum(Digits(v)) == v
  {
    if v > 0 {
      EverySumReached(v / 2);
      ChecksumAppend(0, Digits(v / 2), [v % 2]);
      var s, d: byte := v / 2, v % 2;
      assert ChecksumFrom(s, [d]) == ChecksumStep(s, d);
      StepExact(s, d);
    }
  }

  /** Unnoticed exchanges are real: any two bytes that differ by one have data before them, with any data
      behind, for which nobody notices. */
  lemma SwapUnnoticed(a: byte, b: byte, post: seq<byte>)
    requires b == a + 1 || a == b + 1
    ensures exists pre: seq<byte> :: Checksum(pre + [a, b] + post) == Checksum(pre + [b, a] + post)
  {
    var rotated := TWO32 - 1 - (if a < b then a else b);
    var sum := rotated / 2 + (if rotated % 2 == 1 then 0x8000_0000 else 0);
    EverySumReached(sum);
    assert Rotate32(sum) == rotated;
    StepExact(sum, a);
    SwapDetected(Digits(sum), a, b, post);
    assert Checksum(Digits(sum) + [a, b] + post) == Checksum(Digits(sum) + [b, a] + post);
  }

  // ---- validation ----

  datatype Verdict = Valid | BadMagic | BadSize | BadEnd | BadChecksum

  /** The bytes validation reads are there: always the header, and the rest once the size matches. */
  predicate Readable(buf: seq<byte>, total: nat) {
    && DATA <= |buf|
    && (Word(buf, 0) == MAGIC_START && Word(buf, 4) == total ==> SIZEOF_MESSAGE + 4 <= total <= |buf| + 4)
  }

  function Validate(buf: seq<byte>, total: nat): Verdict
    requires Readable(buf, total)
  {
    if Word(buf, 0) != MAGIC_START then BadMagic
    else if Word(buf, 4) != total then BadSize
    else
      var end := DATA + (total - SIZEOF_MESSAGE - 4);
      if Word(buf, end) != MAGIC_END then BadEnd
      else if Checksum(buf[DATA..end]) != Word(buf, 24) then BadChecksum
      else Valid
  }

  /** The first check that fails, on the bytes themselves, for every buffer and claimed length. */
  lemma VerdictExactly(buf: seq<byte>, total: nat)
    requires Readable(buf, total)
    ensures var magic := buf[0..4] == [0xEF, 0xBE, 0xAD, 0xDE];
            var size := total < TWO32 && buf[4..8] == Le32(total);
            && (magic && size ==> SIZEOF_MESSAGE + 4 <= total <= |buf| + 4)
            && Validate(buf, total) ==
               if !magic then BadMagic
               else if !size then BadSize
               else if buf[total - 8..total - 4] != [0xBE, 0xBA, 0xFE, 0xCA] then BadEnd
               else if buf[24..28] != Le32(Checksum(buf[28..total - 8])) then BadChecksum
               else Valid
  {
    MagicBytes(buf, 0);
    WordBytes(buf, 4, if total < TWO32 then total else 0);
    if Word(buf, 0) == MAGIC_START && Word(buf, 4) == total {
      MagicBytes(buf, total - 8);
      SumBytes(buf, buf[28..total - 8]);
    }
  }

  lemma SumBytes(buf: seq<byte>, data: seq<byte>)
    requires DATA <= |buf|
    ensures Checksum(data) == Word(buf, 24) <==> buf[24..28] == Le32(Checksum(data))
  {
    WordBytes(buf, 24, Checksum(data));
  }

  /** The two markers as they lie in memory. */
  lemma MagicBytes(buf: seq<byte>, at: nat)
    requires at + 4 <= |buf|
    ensures Word(buf, at) == MAGIC_START <==> buf[at..at + 4] == [0xEF, 0xBE, 0xAD, 0xDE]
    ensures Word(buf, at) == MAGIC_END <==> buf[at..at + 4] == [0xBE, 0xBA, 0xFE, 0xCA]
  {
    WordBytes(buf, at, MAGIC_START);
    WordBytes(buf, at, MAGIC_END);
    assert Le32(MAGIC_START) == [0xEF, 0xBE, 0xAD, 0xDE];
    assert Le32(MAGIC_END) == [0xBE, 0xBA, 0xFE, 0xCA];
  }

  /** Exactly the valid messages: start marker, size field, end marker and checksum are all in place. */
  lemma ValidExactly(buf: seq<byte>, total: nat)
    requires Readable(buf, total)
    ensures Validate(buf, total) == Valid <==>
            && buf[0..4] == [0xEF, 0xBE, 0xAD, 0xDE]
            && SIZEOF_MESSAGE + 4 <= total < TWO32 && total <= |buf| + 4 && buf[4..8] == Le32(total)
            && buf[total - 8..total - 4] == [0xBE, 0xBA, 0xFE, 0xCA]
            && buf[24..28] == Le32(Checksum(buf[28..total - 8]))
  {
    VerdictExactly(buf, total);
  }

  /** What a one-byte change to a valid message does, byte by byte. Only the sequence number, the
      padding, the timestamp and the four bytes nobody writes are unprotected. */
  lemma OneByteVerdict(buf: seq<byte>, i: nat, x: byte)
    requires Readable(buf, |buf|) && Validate(buf, |buf|) == Valid
    requires i < |buf| && x != buf[i]
    ensures Readable(buf[i := x], |buf|)
    ensures Validate(buf[i := x], |buf|) ==
            if i < 4 then BadMagic
            else if i < 8 then BadSize
            else if i < 24 || i >= |buf| - 4 then Valid
            else if i < |buf| - 8 then BadChecksum
            else BadEnd
  {
    var end, new_ := |buf| - 8, buf[i := x];
    WordUpdate(buf, 0, i, x);
    WordUpdate(buf, 4, i, x);
    WordUpdate(buf, 24, i, x);
    WordUpdate(buf, end, i, x);
    if DATA <= i < end {
      assert new_[DATA..end] == buf[DATA..end][i - DATA := x];
      OneByteDetected(buf[DATA..end], i - DATA, x);
    } else {
      assert new_[DATA..end] == buf[DATA..end];
    }
  }

  // ---- construction ----

  function NextSeq(buf: seq<byte>): nat
    requires DATA <= |buf|
  {
    U32(Word(buf, 8) + 1)
  }

  ghost predicate Same(before: seq<byte>, after: seq<byte>, lo: nat, hi: nat) {
    hi <= |before| == |after| && forall k :: lo <= k < hi ==> after[k] == before[k]
  }

  /** The first n payload bytes are the generator's, seeded with the sequence number. */
  ghost predicate IsPayload(buf: seq<byte>, n: nat, seqNo: nat) {
    && DATA + n <= |buf|
    && forall i: nat {:trigger PayloadByte(seqNo, i)} :: i < n ==> buf[DATA + i] == PayloadByte(seqNo, i)
  }

  /** The header holds the checksum of the n payload bytes. (The trigger is for proofs that pass it on.) */
  ghost predicate SumStored(buf: seq<byte>, n: nat) {
    && DATA + n <= |buf|
    && forall data: seq<byte> {:trigger Checksum(data)} ::
         data == buf[DATA..DATA + n] ==> Word(buf, 24) == Checksum(data)
  }

  /** The buffer after random_message with n payload bytes at time now: every header field but the padding
      is written, then the payload, its checksum and the end marker; all else keeps its bytes. */
  ghost predicate Built(before: seq<byte>, after: seq<byte>, n: nat, now: nat) {
    && SIZEOF_MESSAGE + n <= |before| == |after|
    && Word(after, 0) == MAGIC_START && Word(after, 4) == U32(SIZEOF_MESSAGE + n + 4)
    && Word(after, 8) == NextSeq(before)
    && Same(before, after, 12, 16)
    && Word(after, 16) == U32(now) && Word(after, 20) == U32(now / 0x1_0000_0000)
    && IsPayload(after, n, NextSeq(before))
    && SumStored(after, n)
    && Word(after, DATA + n) == MAGIC_END
    && Same(before, after, SIZEOF_MESSAGE + n, |before|)
  }

  method Store32(buf: array<byte>, at: nat, w: nat)
    requires at + 4 <= buf.Length
    modifies buf
    ensures Word(buf[..], at) == U32(w)
    ensures forall k :: 0 <= k < buf.Length && !(at <= k < at + 4) ==> buf[k] == old(buf[k])
  {
    DecodeLe32(w);
    buf[at], buf[at + 1], buf[at + 2], buf[at + 3] := Le32(w)[0], Le32(w)[1], Le32(w)[2], Le32(w)[3];
  }

  /** Line 110-115: a size in [min, max), or min when the range is empty. */
  function PayloadSize(min: nat, max: nat, rand: nat): (n: nat)
    ensures min <= n && (max > min ==> n < max) && (max <= min ==> n == min)
  {
    if max > min then min + rand % (max - min) else min
  }

  /** Every size in the range is drawn, by the random numbers that differ from its place in the range by a
      multiple of the range; they all do from one. */
  lemma SizesDrawn(min: nat, max: nat, n: nat, k: nat)
    requires min <= n < max
    ensures PayloadSize(min, max, n - min + k * (max - min)) == n
  {
    Residue(n - min, k, max - min);
  }

  lemma Residue(r: nat, k: nat, d: nat)
    requires r < d
    ensures (r + k * d) % d == r
  {
    var x := r + k * d;
    OneQuotient(d, k, r, x / d, x % d);
  }

  lemma OneQuotient(d: nat, q: nat, r: nat, q': nat, r': nat)
    requires r < d && r' < d && d * q + r == d * q' + r'
    ensures r == r'
  {
    if q < q' {
      Multiples(d, q, q');
    } else if q' < q {
      Multiples(d, q', q);
    }
  }

  lemma {:induction false} Multiples(d: nat, q: nat, q': nat)
    requires q < q'
    ensures d * q + d <= d * q'
    decreases q'
  {
    assert d * q' == d * (q' - 1) + d;
    if q < q' - 1 {
      Multiples(d, q, q' - 1);
    }
  }

  ghost predicate HeaderFilled(before: seq<byte>, after: seq<byte>, size: nat, seqNo: nat, now: nat) {
    && DATA <= |before| == |after|
    && Word(after, 0) == MAGIC_START && Word(after, 4) == U32(size) && Word(after, 8) == U32(seqNo)
    && Word(after, 16) == U32(now) && Word(after, 20) == U32(now / 0x1_0000_0000)
    && Same(before, after, 12, 16) && Same(before, after, 24, |before|)
  }

  ghost predicate PayloadFilled(before: seq<byte>, after: seq<byte>, n: nat, seqNo: nat) {
    && DATA + n <= |before| == |after|
    && IsPayload(after, n, seqNo)
    && Same(before, after, 0, DATA) && Same(before, after, DATA + n, |before|)
  }

  ghost predicate Sealed(before: seq<byte>, after: seq<byte>, n: nat) {
    && SIZEOF_MESSAGE + n <= |before| == |after|
    && after[DATA..DATA + n] == before[DATA..DATA + n]
    && Word(after, 24) == Checksum(after[DATA..DATA + n]) && Word(after, DATA + n) == MAGIC_END
    && Same(before, after, 0, 24) && Same(before, after, SIZEOF_MESSAGE + n, |before|)
  }

  lemma SameWord(before: seq<byte>, after: seq<byte>, lo: nat, hi: nat, at: nat)
    requires Same(before, after, lo, hi) && lo <= at && at + 4 <= hi
    ensures Word(after, at) == Word(before, at)
  {
  }

  lemma HeaderStays(before: seq<byte>, header: seq<byte>, after: seq<byte>, size: nat, seqNo: nat, now: nat)
    requires HeaderFilled(before, header, size, seqNo, now) && Same(header, after, 0, 24)
    ensures Word(after, 0) == MAGIC_START && Word(after, 4) == U32(size) && Word(after, 8) == U32(seqNo)
    ensures Word(after, 16) == U32(now) && Word(after, 20) == U32(now / 0x1_0000_0000)
    ensures Same(before, after, 12, 16)
  {
    SameWord(header, after, 0, 24, 0);
    SameWord(header, after, 0, 24, 4);
    SameWord(header, after, 0, 24, 8);
    SameWord(header, after, 0, 24, 16);
    SameWord(header, after, 0, 24, 20);
  }

  lemma PayloadStays(filled: seq<byte>, after: seq<byte>, n: nat, seqNo: nat)
    requires IsPayload(filled, n, seqNo) && |after| == |filled| && after[DATA..DATA + n] == filled[DATA..DATA + n]
    ensures IsPayload(after, n, seqNo)
  {
    forall i: nat | i < n ensures after[DATA + i] == PayloadByte(seqNo, i) {
      assert after[DATA..DATA + n][i] == filled[DATA..DATA + n][i];
    }
  }

  lemma Assembled(before: seq<byte>, header: seq<byte>, filled: seq<byte>, after: seq<byte>, n: nat, now: nat)
    requires DATA <= |before|
    requires HeaderFilled(before, header, SIZEOF_MESSAGE + n + 4, NextSeq(before), now)
    requires PayloadFilled(header, filled, n, NextSeq(before)) && Sealed(filled, after, n)
    ensures Built(before, after, n, now)
  {
    HeaderStays(before, header, after, SIZEOF_MESSAGE + n + 4, NextSeq(before), now);
    PayloadStays(filled, after, n, NextSeq(before));
  }

  method FillHeader(msg: array<byte>, size: nat, seqNo: nat, now: nat)
    requires DATA <= msg.Length
    modifies msg
    ensures HeaderFilled(old(msg[..]), msg[..], size, seqNo, now)
  {
    Store32(msg, 0, MAGIC_START);
    Store32(msg, 4, size);
    Store32(msg, 8, seqNo);
    Store32(msg, 16, now);
    Store32(msg, 20, now / 0x1_0000_0000);
  }

  method FillPayload(msg: array<byte>, n: nat, seqNo: nat)
    requires DATA + n <= msg.Length
    modifies msg
    ensures PayloadFilled(old(msg[..]), msg[..], n, seqNo)
  {
    var state := seqNo;
    for i := 0 to n
      invariant state == StateAfter(seqNo, i)
      invariant IsPayload(msg[..], i, seqNo)
      invariant forall k :: 0 <= k < msg.Length && !(DATA <= k < DATA + i) ==> msg[k] == old(msg[k])
    {
      state := U32(state * FACTOR + STEP);
      msg[DATA + i] := (state / 0x1_0000) % 256;
    }
  }

  /** The checksum of the payload, and the end marker behind it. */
  method Seal(msg: array<byte>, n: nat)
    requires SIZEOF_MESSAGE + n <= msg.Length
    modifies msg
    ensures Sealed(old(msg[..]), msg[..], n)
  {
    ghost var data := msg[..][DATA..DATA + n];
    assert msg[DATA..DATA + n] == data;
    var sum := CalculateChecksum(msg, DATA, n);
    Store32(msg, 24, sum);
    Store32(msg, DATA + n, MAGIC_END);
    assert msg[..][DATA..DATA + n] == data;
  }

  method BuildMessage(msg: array<byte>, n: nat, now: nat)
    requires SIZEOF_MESSAGE + n <= msg.Length
    modifies msg
    ensures Built(old(msg[..]), msg[..], n, now)
  {
    ghost var before := msg[..];
    var seqNo := U32(Word(msg[..], 8) + 1);
    FillHeader(msg, SIZEOF_MESSAGE + n + 4, seqNo, now);
    ghost var header := msg[..];
    FillPayload(msg, n, seqNo);
    ghost var filled := msg[..];
    Seal(msg, n);
    Assembled(before, header, filled, msg[..], n, now);
  }

  method RandomMessage(msg: array<byte>, minSize: nat, maxSize: nat, rand: nat, now: nat)
    requires SIZEOF_MESSAGE + (if maxSize > minSize then maxSize - 1 else minSize) <= msg.Length
    modifies msg
    ensures Built(old(msg[..]), msg[..], PayloadSize(minSize, maxSize, rand), now)
  {
    var n := PayloadSize(minSize, maxSize, rand);
    BuildMessage(msg, n, now);
  }

  /** A built message validates at its own length exactly when that length fits the size field. */
  lemma BuiltValidates(before: seq<byte>, after: seq<byte>, n: nat, now: nat)
    requires Built(before, after, n, now)
    ensures var total := SIZEOF_MESSAGE + n + 4;
            Readable(after, total) && (Validate(after, total) == Valid <==> total < TWO32)
  {
  }

  /** The client overwrites the timestamp after building; the message is as built at that later time. */
  lemma TimestampOverwrite(before: seq<byte>, built: seq<byte>, after: seq<byte>, n: nat, now: nat, later: nat)
    requires Built(before, built, n, now)
    requires Same(built, after, 0, 16) && Same(built, after, 24, |built|)
    requires Word(after, 16) == U32(later) && Word(after, 20) == U32(later / 0x1_0000_0000)
    ensures Built(before, after, n, later)
  {
    assert after[DATA..DATA + n] == built[DATA..DATA + n];
  }

  lemma FrontWord(buf: seq<byte>, n: nat, at: nat)
    requires at + 4 <= n <= |buf|
    ensures Word(buf[..n], at) == Word(buf, at)
  {
  }

  /** Validation does not look past the end of the message. */
  lemma CutVerdict(buf: seq<byte>, n: nat)
    requires SIZEOF_MESSAGE + 4 <= n <= |buf|
    ensures Readable(buf, n) && Readable(buf[..n], n) && Validate(buf[..n], n) == Validate(buf, n)
  {
    var end := n - 8;
    assert buf[..n][DATA..end] == buf[DATA..end];
    FrontWord(buf, n, 0);
    FrontWord(buf, n, 4);
    FrontWord(buf, n, 24);
    FrontWord(buf, n, end);
  }

  lemma CutValidates(buf: seq<byte>, total: nat)
    requires Readable(buf, total) && Validate(buf, total) == Valid && total <= |buf|
    ensures DATA <= total && Readable(buf[..total], total) && Validate(buf[..total], total) == Valid
    ensures Word(buf[..total], 8) == Word(buf, 8)
  {
    CutVerdict(buf, total);
    FrontWord(buf, total, 8);
  }

  // ---- the requests the clients send ----

  /** The first n bytes of a buffer. */
  function Cut(buf: seq<byte>, n: nat): seq<byte> {
    if n <= |buf| then buf[..n] else buf
  }

  /** A message read into a buffer. */
  function Laid(buf: seq<byte>, m: seq<byte>): seq<byte> {
    m + (if |m| <= |buf| then buf[|m|..] else [])
  }

  /** random_message followed by the timestamp store, on the client's buffer. */
  ghost predicate NewRequest(buf: seq<byte>, buf': seq<byte>) {
    exists n: nat, now: nat :: MIN_PAYLOAD <= n < MAX_PAYLOAD && Built(buf, buf', n, now)
  }

  /** What random_message leaves in a buffer, as a value: the header up to the payload, and all of it. */
  function HeaderOn(buf: seq<byte>, n: nat, now: nat, sum: nat): (h: seq<byte>)
    requires DATA <= |buf|
    ensures |h| == DATA
  {
    Le32(MAGIC_START) + Le32(SIZEOF_MESSAGE + n + 4) + Le32(NextSeq(buf)) + buf[12..16]
    + Le32(now) + Le32(now / 0x1_0000_0000) + Le32(sum)
  }

  function PayloadOn(buf: seq<byte>, n: nat): (p: seq<byte>)
    requires DATA <= |buf|
    ensures |p| == n
  {
    seq(n, (i: nat) => PayloadByte(NextSeq(buf), i))
  }

  function BuildOn(buf: seq<byte>, n: nat, now: nat): (r: seq<byte>)
    requires SIZEOF_MESSAGE + n <= |buf|
    ensures |r| == |buf|
  {
    var payload := PayloadOn(buf, n);
    HeaderOn(buf, n, now, Checksum(payload)) + payload + Le32(MAGIC_END) + buf[SIZEOF_MESSAGE + n..]
  }

  /** A word is what was encoded where it stands. */
  lemma WordAt(buf: seq<byte>, at: nat, w: nat)
    requires at + 4 <= |buf| && buf[at..at + 4] == Le32(w)
    ensures Word(buf, at) == U32(w)
  {
    DecodeLe32(w);
    var b := buf[at..at + 4];
    assert b[0] == buf[at] && b[1] == buf[at + 1] && b[2] == buf[at + 2] && b[3] == buf[at + 3];
    assert Word(buf, at) == FromLe32(Le32(w));
  }

  lemma HeaderWords(buf: seq<byte>, n: nat, now: nat, sum: nat)
    requires DATA <= |buf| && sum < TWO32
    ensures var h := HeaderOn(buf, n, now, sum);
            && Word(h, 0) == MAGIC_START && Word(h, 4) == U32(SIZEOF_MESSAGE + n + 4) && Word(h, 8) == NextSeq(buf)
            && h[12..16] == buf[12..16] && Word(h, 16) == U32(now) && Word(h, 20) == U32(now / 0x1_0000_0000)
            && Word(h, 24) == sum
  {
    var h := HeaderOn(buf, n, now, sum);
    WordAt(h, 0, MAGIC_START);
    WordAt(h, 4, SIZEOF_MESSAGE + n + 4);
    WordAt(h, 8, NextSeq(buf));
    WordAt(h, 16, now);
    WordAt(h, 20, now / 0x1_0000_0000);
    WordAt(h, 24, sum);
  }

  /** The message laid out over the buffer, whatever its header and payload are. */
  lemma LaidOut(buf: seq<byte>, h: seq<byte>, payload: seq<byte>, seqNo: nat)
    requires |h| == DATA && SIZEOF_MESSAGE + |payload| <= |buf|
    requires forall i: nat {:trigger PayloadByte(seqNo, i)} :: i < |payload| ==> payload[i] == PayloadByte(seqNo, i)
    ensures var r, n := h + payload + Le32(MAGIC_END) + buf[SIZEOF_MESSAGE + |payload|..], |payload|;
            && r[..DATA] == h && r[DATA..DATA + n] == payload && IsPayload(r, n, seqNo)
            && Word(r, DATA + n) == MAGIC_END && Same(buf, r, SIZEOF_MESSAGE + n, |buf|)
  {
    WordAt(h + payload + Le32(MAGIC_END) + buf[SIZEOF_MESSAGE + |payload|..], DATA + |payload|, MAGIC_END);
  }

  lemma BuildOnBuilds(buf: seq<byte>, n: nat, now: nat)
    requires SIZEOF_MESSAGE + n <= |buf|
    ensures Built(buf, BuildOn(buf, n, now), n, now)
  {
    var r, payload := BuildOn(buf, n, now), PayloadOn(buf, n);
    var h := HeaderOn(buf, n, now, Checksum(payload));
    HeaderWords(buf, n, now, Checksum(payload));
    LaidOut(buf, h, payload, NextSeq(buf));
    FrontWord(r, DATA, 0);
    FrontWord(r, DATA, 4);
    FrontWord(r, DATA, 8);
    FrontWord(r, DATA, 16);
    FrontWord(r, DATA, 20);
    FrontWord(r, DATA, 24);
    forall k | 12 <= k < 16 ensures r[k] == buf[k] {
      assert r[..DATA][k] == h[12..16][k - 12] == buf[12..16][k - 12];
    }
  }

  /** The client can always go on. */
  lemma NewRequestExists(buf: seq<byte>)
    requires |buf| == MAX_MSG_SIZE
    ensures exists buf' :: NewRequest(buf, buf')
  {
    BuildOnBuilds(buf, MIN_PAYLOAD, 0);
    assert NewRequest(buf, BuildOn(buf, MIN_PAYLOAD, 0));
  }

  /** A request that carries sequence number k. */
  ghost predicate Numbered(m: seq<byte>, k: nat) {
    DATA <= |m| <= LONGEST && Word(m, 8) == U32(k)
  }

  /** A message that validates at its own length. (The trigger keeps proofs that only pass it on short.) */
  ghost predicate Checks(m: seq<byte>) {
    DATA <= |m| && forall n: nat {:trigger Validate(m, n)} :: n == |m| ==> Readable(m, n) && Validate(m, n) == Valid
  }

  /** A message fresh from random_message, cut at its size field: one number further, and valid. */
  lemma FreshIsNumbered(buf: seq<byte>, buf': seq<byte>, k: nat)
    requires NewRequest(buf, buf') && |buf| == MAX_MSG_SIZE && Word(buf, 8) == U32(k)
    ensures |buf'| == |buf| && Numbered(Cut(buf', Word(buf', 4)), k + 1)
  {
    NextU32(k);
  }

  lemma FreshValidates(buf: seq<byte>, buf': seq<byte>)
    requires NewRequest(buf, buf') && |buf| == MAX_MSG_SIZE
    ensures |buf'| == |buf| && Word(buf', 4) <= |buf'|
    ensures Readable(buf', Word(buf', 4)) && Validate(buf', Word(buf', 4)) == Valid
  {
    var n: nat, now: nat :| MIN_PAYLOAD <= n < MAX_PAYLOAD && Built(buf, buf', n, now);
    BuiltValidates(buf, buf', n, now);
  }

  lemma FreshChecks(buf: seq<byte>, buf': seq<byte>)
    requires NewRequest(buf, buf') && |buf| == MAX_MSG_SIZE
    ensures |buf'| == |buf| && Checks(Cut(buf', Word(buf', 4)))
  {
    FreshValidates(buf, buf');
    CutValidates(buf', Word(buf', 4));
  }

  /** A buffer that starts with a valid request numbered k. */
  ghost predicate HoldsRequest(buf: seq<byte>, k: nat) {
    && |buf| == MAX_MSG_SIZE
    && Numbered(Cut(buf, Word(buf, 4)), k) && Checks(Cut(buf, Word(buf, 4)))
  }

  lemma FreshRequest(buf: seq<byte>, buf': seq<byte>, k: nat)
    requires NewRequest(buf, buf') && |buf| == MAX_MSG_SIZE && Word(buf, 8) == U32(k)
    ensures HoldsRequest(buf', k + 1)
  {
    FreshIsNumbered(buf, buf', k);
    FreshChecks(buf, buf');
  }
}
