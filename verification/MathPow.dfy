/** math_pow of drivers/devices/SD/SD.c: exponentiation by squaring on 32-bit words. */
module MathPow {
  import opened Common

  function Pow(v: nat, e: nat): nat {
    if e == 0 then 1 else v * Pow(v, e - 1)
  }

  lemma ModShift(k: nat, r: nat)
    ensures (k * UINT32 + r) % UINT32 == r % UINT32
  {
  }

  lemma MulMod(a: nat, b: nat)
    ensures (a % UINT32) * b % UINT32 == a * b % UINT32
  {
    var q, r := a / UINT32, a % UINT32;
    assert a == q * UINT32 + r;
    assert a * b == (q * b) * UINT32 + r * b by {
      assert (q * UINT32 + r) * b == q * UINT32 * b + r * b;
      assert q * UINT32 * b == (q * b) * UINT32;
    }
    ModShift(q * b, r * b);
  }

  lemma MulAssoc(a: nat, b: nat, c: nat)
    ensures a * (b * c) == (a * b) * c
  {
  }

  lemma {:induction false} PowAdd(v: nat, a: nat, b: nat)
    ensures Pow(v, a + b) == Pow(v, a) * Pow(v, b)
  {
    if a > 0 {
      PowAdd(v, a - 1, b);
      MulAssoc(v, Pow(v, a - 1), Pow(v, b));
    }
  }

  lemma {:induction false} PowSquare(v: nat, h: nat)
    ensures Pow(v * v, h) == Pow(v, 2 * h)
  {
    if h > 0 {
      PowSquare(v, h - 1);
      assert Pow(v, 2 * h) == v * Pow(v, 2 * h - 1) == v * (v * Pow(v, 2 * (h - 1)));
      MulAssoc(v, v, Pow(v, 2 * (h - 1)));
    }
  }

  /** Reducing the base modulo 2^32 does not change the power modulo 2^32. */
  lemma {:induction false} PowOfResidue(v: nat, e: nat)
    ensures Pow(v % UINT32, e) % UINT32 == Pow(v, e) % UINT32
  {
    if e > 0 {
      var w := v % UINT32;
      PowOfResidue(v, e - 1);
      MulMod(Pow(w, e - 1), w);
      MulMod(Pow(v, e - 1), w);
      MulMod(v, Pow(v, e - 1));
      assert Pow(w, e) == Pow(w, e - 1) * w;
      assert Pow(v, e - 1) * w == w * Pow(v, e - 1);
    }
  }

  lemma Congruent(r: nat, p: nat, q: nat)
    requires p % UINT32 == q % UINT32
    ensures r * p % UINT32 == r * q % UINT32
    ensures (r % UINT32) * p % UINT32 == r * q % UINT32
  {
    MulMod(p, r);
    MulMod(q, r);
    MulMod(r, p);
    assert p * r == r * p && q * r == r * q;
  }

  lemma TakeOut(result: nat, value: nat, exp: nat)
    requires exp > 0
    ensures (if exp % 2 == 1 then result * value else result) * Pow(value, 2 * (exp / 2)) == result * Pow(value, exp)
  {
    if exp % 2 == 1 {
      assert exp - 1 == 2 * (exp / 2);
      assert result * value * Pow(value, exp - 1) == result * (value * Pow(value, exp - 1));
    }
  }

  /** One round of the loop keeps result * value^exp modulo 2^32. */
  lemma RoundKeeps(result: nat, value: nat, exp: nat)
    requires exp > 0
    ensures
      var result' := if exp % 2 == 1 then result * value % UINT32 else result;
      var value' := value * value % UINT32;
      result' * Pow(value', exp / 2) % UINT32 == result * Pow(value, exp) % UINT32
  {
    var h := exp / 2;
    var r := if exp % 2 == 1 then result * value else result;
    PowOfResidue(value * value, h);
    PowSquare(value, h);
    Congruent(r, Pow(value * value % UINT32, h), Pow(value, 2 * h));
    TakeOut(result, value, exp);
  }

  /** math_pow: v^e modulo 2^32, although result and the squared base wrap on the way. */
  method Compute(v: nat, e: nat) returns (result: nat)
    requires v < UINT32 && e < UINT32
    ensures result == Pow(v, e) % UINT32
  {
    result := 1;
    if e <= 1 {
      return if e == 1 then v else 1;
    }
    var value: nat, exp: nat := v, e;
    while exp > 0
      invariant result < UINT32
      invariant result * Pow(value, exp) % UINT32 == Pow(v, e) % UINT32
    {
      RoundKeeps(result, value, exp);
      if exp % 2 == 1 {
        result := result * value % UINT32;
      }
      exp := exp / 2;
      value := value * value % UINT32;
    }
  }

  lemma {:induction false} PowGrows(e: nat, d: nat)
    ensures Pow(2, e) <= Pow(2, e + d) && (d > 0 ==> Pow(2, e) < Pow(2, e + d)) && Pow(2, e) > 0
  {
    if d > 0 {
      PowGrows(e, d - 1);
    } else if e > 0 {
      PowGrows(e - 1, 0);
    }
  }

  lemma TwoTo32()
    ensures Pow(2, 32) == UINT32
  {
    PowAdd(2, 16, 16);
    PowAdd(2, 8, 8);
    PowAdd(2, 4, 4);
    assert Pow(2, 4) == 16;
  }

  /** The capacity code raises 2 to four-bit and three-bit fields: a power of two comes out whole exactly
      for exponents below 32, so for all of these. */
  lemma PowerOfTwoFits(e: nat)
    ensures Pow(2, e) % UINT32 == Pow(2, e) <==> e < 32
  {
    TwoTo32();
    if e < 32 {
      PowGrows(e, 32 - e);
    } else {
      PowGrows(32, e - 32);
      assert Pow(2, e) % UINT32 < UINT32 <= Pow(2, e);
    }
  }
}
