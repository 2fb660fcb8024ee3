/** calculate_prescalers_rtc of drivers/core/RTC.c: the first of 128 dividers whose quotient fits the
    15-bit synchronous prescaler. */
module RtcPrescaler {
  import opened Common

  const MAX_A: nat := 127
  const MAX_S: nat := 0x7FFF

  /** The quotient the loop computes for divider a, in 32 bits: 0 divided down wraps to 2^32 - 1. */
  function Quotient(f: nat, a: nat): nat {
    (f / (a + 1) + UINT32 - 1) % UINT32
  }

  predicate Usable(f: nat, a: nat) {
    Quotient(f, a) <= MAX_S
  }

  /** The divider in closed form. */
  function Divider(f: nat): nat { f / (MAX_S + 2) }

  predicate InReach(f: nat) { 0 < f < (MAX_S + 2) * (MAX_A + 1) }

  lemma MulMono(a: nat, b: nat, c: nat)
    requires b <= c
    ensures a * b <= a * c
  {
  }

  lemma QuotientAtMost(f: nat, d: nat, k: nat)
    requires d > 0
    ensures f / d <= k <==> f < d * (k + 1)
  {
    var q := f / d;
    assert f == d * q + f % d;
    if q <= k {
      MulMono(d, q, k);
      assert d * (k + 1) == d * k + d;
    } else {
      MulMono(d, k + 1, q);
    }
  }

  lemma QuotientBound(f: nat, a: nat)
    ensures f / (a + 1) <= MAX_S + 1 <==> f < (a + 1) * (MAX_S + 2)
    ensures f / (a + 1) >= 1 <==> f >= a + 1
    ensures 0 <= f - (a + 1) * (f / (a + 1)) <= a
    ensures f / (a + 1) <= f
  {
    QuotientAtMost(f, a + 1, MAX_S + 1);
    QuotientAtMost(f, a + 1, 0);
    QuotientAtMost(f, a + 1, f);
    MulMono(f + 1, 1, a + 1);
    var q := f / (a + 1);
    assert f == (a + 1) * q + f % (a + 1);
  }

  lemma UsableMeans(f: nat, a: nat)
    requires f < UINT32
    ensures Usable(f, a) <==> a + 1 <= f < (MAX_S + 2) * (a + 1)
  {
    QuotientBound(f, a);
    Decrement(f / (a + 1));
  }

  /** Decrementing a 32-bit word. */
  lemma Decrement(q: nat)
    requires q < UINT32
    ensures (q + UINT32 - 1) % UINT32 == if q == 0 then UINT32 - 1 else q - 1
  {
  }

  /** Divider(f) is the least usable divider; there is one exactly when 0 < f < 32769 * 128. */
  lemma DividerIsLeast(f: nat)
    requires f < UINT32
    ensures (exists a :: 0 <= a <= MAX_A && Usable(f, a)) <==> InReach(f)
    ensures InReach(f) ==> Divider(f) <= MAX_A && Usable(f, Divider(f))
    ensures InReach(f) ==> forall a: nat :: a < Divider(f) ==> !Usable(f, a)
  {
    var d := Divider(f);
    assert (MAX_S + 2) * d <= f < (MAX_S + 2) * (d + 1);
    UsableMeans(f, d);
    forall a: nat
      ensures Usable(f, a) <==> a + 1 <= f < (MAX_S + 2) * (a + 1)
    {
      UsableMeans(f, a);
    }
  }

  /** Where the search stops. */
  lemma FoundFirst(f: nat, a: nat)
    requires f < UINT32 && a <= MAX_A && Usable(f, a) && forall b :: 0 <= b < a ==> !Usable(f, b)
    ensures InReach(f) && a == Divider(f) && Quotient(f, a) + 1 == f / (a + 1)
    ensures 0 <= f - (a + 1) * (Quotient(f, a) + 1) <= a
  {
    DividerIsLeast(f);
    UsableMeans(f, a);
    QuotientBound(f, a);
    Decrement(f / (a + 1));
  }

  /** In reach, in the words of the rounding. */
  lemma OutOfReach(f: nat)
    ensures !InReach(f) <==> f == 0 || f / 128 > 32768
  {
  }

  /** The search.  On success a is the least usable divider and the divided clock is off by at most a;
      it falls back to (127, 0x7FFF) exactly when f is 0 or too fast. */
  method Calculate(f: nat) returns (a: nat, s: nat)
    requires f < UINT32
    ensures a <= MAX_A && s <= MAX_S
    ensures InReach(f) ==> a == Divider(f) && s + 1 == f / (a + 1) && 0 <= f - (a + 1) * (s + 1) <= a
    ensures !InReach(f) ==> (a, s) == (MAX_A, MAX_S)
    ensures !InReach(f) <==> f == 0 || f / 128 > 32768
  {
    OutOfReach(f);
    a := 0;
    while a <= MAX_A
      invariant a <= MAX_A + 1
      invariant forall b :: 0 <= b < a ==> !Usable(f, b)
    {
      s := Quotient(f, a);
      if s <= MAX_S {
        FoundFirst(f, a);
        return;
      }
      a := a + 1;
    }
    DividerIsLeast(f);
    a, s := MAX_A, MAX_S;
  }
}
