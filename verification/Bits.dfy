/** JavaScript's bit operations on small natural numbers, in terms of arithmetic. */
module Bits {

  function And(a: nat, b: nat): nat {
    if a == 0 || b == 0 then 0 else 2 * And(a / 2, b / 2) + (if a % 2 == 1 && b % 2 == 1 then 1 else 0)
  }

  function Or(a: nat, b: nat): nat
    decreases a + b
  {
    if a == 0 then b else if b == 0 then a
    else 2 * Or(a / 2, b / 2) + (if a % 2 == 1 || b % 2 == 1 then 1 else 0)
  }

  function Pow2(n: nat): (p: nat)
    ensures p > 0
  {
    if n == 0 then 1 else 2 * Pow2(n - 1)
  }

  /** `a << n`, for results that fit. */
  function Shl(a: nat, n: nat): nat {
    a * Pow2(n)
  }

  lemma {:induction false} AndCommutes(a: nat, b: nat)
    ensures And(a, b) == And(b, a)
  {
    if a > 0 && b > 0 { AndCommutes(a / 2, b / 2); }
  }

  lemma AndStep(a: nat, b: nat)
    ensures And(a, b) == 2 * And(a / 2, b / 2) + (if a % 2 == 1 && b % 2 == 1 then 1 else 0)
  {
  }

  lemma {:induction false} AndOnes(a: nat, n: nat)
    ensures And(a, Pow2(n) - 1) == a % Pow2(n)
  {
    if n == 0 {
      assert And(a, 0) == 0;
    } else {
      AndStep(a, Pow2(n) - 1);
      hide And;
      AndOnes(a / 2, n - 1);
      var p := Pow2(n - 1);
      assert (2 * p - 1) / 2 == p - 1 && (2 * p - 1) % 2 == 1;
      HalvesOfRemainder(a, p);
    }
  }

  lemma HalvesOfRemainder(a: nat, p: nat)
    requires p > 0
    ensures a % (2 * p) == 2 * ((a / 2) % p) + a % 2
    ensures a / (2 * p) == (a / 2) / p
  {
    var h, r := a / 2, a % 2;
    var q, t := h / p, h % p;
    assert a == 2 * (p * q + t) + r == (2 * p) * q + (2 * t + r);
    QuotientIs(a, 2 * p, q, 2 * t + r);
  }

  lemma QuotientIs(n: nat, k: nat, q: nat, r: nat)
    requires n == k * q + r && r < k
    ensures n / k == q && n % k == r
  {
    var d := n / k - q;
    assert k * d == r - n % k;
    if d > 0 {
    } else if d < 0 {
    }
  }

  lemma LowBits(a: nat, k: nat)
    ensures a % Pow2(k) == if k == 0 then 0 else 2 * ((a / 2) % Pow2(k - 1)) + a % 2
    ensures a / Pow2(k) == if k == 0 then a else (a / 2) / Pow2(k - 1)
  {
    if k > 0 { HalvesOfRemainder(a, Pow2(k - 1)); }
  }

  /** `a >>> k`: what is left without the last `k` bits. */
  function Shr(a: nat, k: nat): nat {
    if k == 0 then a else Shr(a / 2, k - 1)
  }

  lemma {:induction false} ShrIsQuotient(a: nat, k: nat)
    ensures Shr(a, k) == a / Pow2(k)
  {
    LowBits(a, k);
    if k > 0 { ShrIsQuotient(a / 2, k - 1); }
  }

  lemma {:induction false} ShrTwice(a: nat, k: nat, l: nat)
    ensures Shr(a, k + l) == Shr(Shr(a, k), l)
  {
    if k > 0 { ShrTwice(a / 2, k - 1, l); }
  }

  /** `v * 2^n`. */
  function Scale(v: nat, n: nat): nat {
    if n == 0 then v else 2 * Scale(v, n - 1)
  }

  lemma {:induction false} ScaleIsProduct(v: nat, n: nat)
    ensures Scale(v, n) == v * Pow2(n)
  {
    if n > 0 {
      ScaleIsProduct(v, n - 1);
      var p := Pow2(n - 1);
      assert 2 * (v * p) == v * (2 * p);
    }
  }

  /** Dropping bits below a scaled number drops them from what was added. */
  lemma {:induction false} ShrScaled(v: nat, x: nat, n: nat, k: nat)
    requires x < Pow2(n) && k <= n
    ensures Shr(Scale(v, n) + x, k) == Scale(v, n - k) + Shr(x, k) && Shr(x, k) < Pow2(n - k)
  {
    if k > 0 {
      assert (Scale(v, n) + x) / 2 == Scale(v, n - 1) + x / 2;
      ShrScaled(v, x / 2, n - 1, k - 1);
    }
  }

  lemma {:induction false} ScaledInjective(v: nat, x: nat, w: nat, y: nat, n: nat)
    requires x < Pow2(n) && y < Pow2(n)
    ensures Scale(v, n) + x == Scale(w, n) + y <==> v == w && x == y
  {
    if n > 0 {
      ScaledInjective(v, x / 2, w, y / 2, n - 1);
    }
  }

  lemma {:induction false} SameShr(a: nat, b: nat, k: nat)
    ensures a - Low(a, k) == b - Low(b, k) <==> Shr(a, k) == Shr(b, k)
  {
    if k > 0 { SameShr(a / 2, b / 2, k - 1); }
  }

  /** The number in the last `k` bits. */
  function Low(a: nat, k: nat): nat {
    if k == 0 then 0 else 2 * Low(a / 2, k - 1) + a % 2
  }

  lemma {:induction false} LowIsRemainder(a: nat, k: nat)
    ensures Low(a, k) == a % Pow2(k)
  {
    LowBits(a, k);
    if k > 0 { LowIsRemainder(a / 2, k - 1); }
  }

  /** Masking off the last `k` bits subtracts them. */
  lemma {:induction false} AndMask(a: nat, k: nat, n: nat)
    requires k <= n && a < Pow2(n)
    ensures Pow2(k) <= Pow2(n) && And(a, Pow2(n) - Pow2(k)) == a - Low(a, k)
  {
    if k == 0 {
      AndOnes(a, n);
      SmallRemainder(a, Pow2(n));
    } else {
      AndMask(a / 2, k - 1, n - 1);
      AndTwice(a, Pow2(n - 1) - Pow2(k - 1));
    }
  }

  lemma SmallRemainder(a: nat, p: nat)
    requires a < p
    ensures a % p == a
  {
  }

  lemma Doubled(b: nat)
    ensures (2 * b) / 2 == b && (2 * b) % 2 == 0
  {
  }

  lemma AndTwice(a: nat, b: nat)
    ensures And(a, 2 * b) == 2 * And(a / 2, b)
  {
    hide And;
    AndStep(a, 2 * b);
    Doubled(b);
  }

  lemma {:induction false} OrIsSum(a: nat, b: nat, n: nat)
    requires b < Pow2(n)
    ensures Or(a * Pow2(n), b) == a * Pow2(n) + b
  {
    if n > 0 && a > 0 && b > 0 {
      var p := Pow2(n - 1);
      OrIsSum(a, b / 2, n - 1);
      assert a * (2 * p) == 2 * (a * p);
      assert (2 * (a * p)) / 2 == a * p && (2 * (a * p)) % 2 == 0;
    }
  }
}
