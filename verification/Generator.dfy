/** The linear congruential generator that fills payloads (benchmark.c:122-127). */
module Generator {
  import opened Bytes

  const FACTOR: nat := 1103515245
  const STEP: nat := 12345

  function NextState(state: nat): nat {
    U32(state * FACTOR + STEP)
  }

  function StateAfter(seed: nat, n: nat): nat {
    if n == 0 then seed else NextState(StateAfter(seed, n - 1))
  }

  function PayloadByte(seed: nat, i: nat): byte {
    (StateAfter(seed, i + 1) / 0x1_0000) % 256
  }

  // ---- closed form ----

  /** FACTOR^n. */
  function Power(n: nat): nat {
    if n == 0 then 1 else FACTOR * Power(n - 1)
  }

  /** The sum of the lower powers, FACTOR^0 to FACTOR^(n-1). */
  function PowersBelow(n: nat): nat {
    if n == 0 then 0 else PowersBelow(n - 1) + Power(n - 1)
  }

  lemma {:induction false} ShiftPowers(n: nat)
    ensures FACTOR * PowersBelow(n) + 1 == PowersBelow(n + 1)
  {
    if n > 0 {
      ShiftPowers(n - 1);
    }
  }

  /** Multiples of 2^32 do not matter. */
  lemma Wraps(x: int, k: int)
    ensures U32(x + 0x1_0000_0000 * k) == U32(x)
  {
  }

  lemma NextOfWrapped(x: nat)
    ensures NextState(U32(x)) == U32(x * FACTOR + STEP)
  {
    var k := x / 0x1_0000_0000;
    assert x * FACTOR + STEP == U32(x) * FACTOR + STEP + 0x1_0000_0000 * (k * FACTOR);
    Wraps(U32(x) * FACTOR + STEP, k * FACTOR);
  }

  lemma NextOfAffine(p: nat, g: nat, p': nat, g': nat, seed: nat)
    requires p' == FACTOR * p && g' == FACTOR * g + 1
    ensures NextState(U32(p * seed + STEP * g)) == U32(p' * seed + STEP * g')
  {
    var y := p * seed;
    NextOfWrapped(y + STEP * g);
    assert p' * seed == FACTOR * y;
  }

  /** The n-th state is an affine image of the seed. */
  lemma {:induction false} ClosedForm(seed: nat, n: nat)
    requires seed < TWO32
    ensures StateAfter(seed, n) == U32(Power(n) * seed + STEP * PowersBelow(n))
  {
    if n == 0 {
      assert Power(0) * seed == seed;
    } else {
      ClosedForm(seed, n - 1);
      ShiftPowers(n - 1);
      NextOfAffine(Power(n - 1), PowersBelow(n - 1), Power(n), PowersBelow(n), seed);
    }
  }

  // ---- a permutation of the 32-bit states ----

  /** The inverse of FACTOR modulo 2^32. */
  const INVERSE: nat := 4005161829

  function LastState(state: nat): nat {
    U32((state - STEP) * INVERSE)
  }

  lemma NextThenLast(x: nat)
    requires x < TWO32
    ensures LastState(NextState(x)) == x
  {
    var q := (x * FACTOR + STEP) / 0x1_0000_0000;
    assert NextState(x) == x * FACTOR + STEP - 0x1_0000_0000 * q;
    assert FACTOR * INVERSE == 1 + 0x1_0000_0000 * 1029054899;
    assert (NextState(x) - STEP) * INVERSE == x + 0x1_0000_0000 * (1029054899 * x - q * INVERSE);
    Wraps(x, 1029054899 * x - q * INVERSE);
  }

  /** Distinct seeds stay distinct at every index. */
  lemma {:induction false} SeedsStayDistinct(s: nat, t: nat, n: nat)
    requires s < TWO32 && t < TWO32
    ensures StateAfter(s, n) == StateAfter(t, n) <==> s == t
  {
    if n > 0 {
      SeedsStayDistinct(s, t, n - 1);
      NextThenLast(StateAfter(s, n - 1));
      NextThenLast(StateAfter(t, n - 1));
    }
  }

  /** The payload of the first request starts with these bytes. */
  lemma FirstBytes()
    ensures PayloadByte(1, 0) == 198 && PayloadByte(1, 1) == 126 && PayloadByte(1, 2) == 129 && PayloadByte(1, 3) == 107
  {
    assert StateAfter(1, 0) == 1;
    assert StateAfter(1, 1) == 1103527590;
    assert StateAfter(1, 2) == 2524885223;
    assert StateAfter(1, 3) == 662824084;
    assert StateAfter(1, 4) == 3295386429;
  }

  /** Payload byte i is bits 16 to 23 of the state after i + 1 steps. */
  lemma PayloadExactly(seed: nat, i: nat)
    requires seed < TWO32
    ensures PayloadByte(seed, i)
            == (U32(Power(i + 1) * seed + STEP * PowersBelow(i + 1)) / 0x1_0000) % 256
  {
    ClosedForm(seed, i + 1);
  }
}
