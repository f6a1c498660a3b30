/** The few facts about quotients that the sector and block arithmetic needs. */
module Arith {

  lemma MulMonotone(a: nat, b: nat, k: nat)
    requires a <= b
    ensures a * k <= b * k
  {}

  /** Quotient and remainder are the only pair there is. */
  lemma DivUnique(a: nat, k: nat, q: nat, r: nat)
    requires k > 0 && a == q * k + r && r < k
    ensures a / k == q && a % k == r
  {
    DivMod(a, k);
    var p := a / k;
    Distribute(p, 1, k);
    Distribute(q, 1, k);
    MulCancel(p, q + 1, k);
    MulCancel(q, p + 1, k);
  }

  lemma DivMod(a: nat, k: nat)
    requires k > 0
    ensures a == a / k * k + a % k && a / k * k <= a < a / k * k + k
  {}

  lemma MultipleMod(a: nat, k: nat)
    requires k > 0
    ensures a * k % k == 0 && a * k / k == a
  {
    DivUnique(a * k, k, a, 0);
  }

  lemma Distribute(a: int, b: int, k: int)
    ensures a * k + b * k == (a + b) * k && a * k - b * k == (a - b) * k
  {}

  /** A product below a product: the factors compare. */
  lemma MulCancel(a: nat, b: nat, k: nat)
    requires a * k < b * k
    ensures a < b
  {
    if b <= a { MulMonotone(b, a, k); }
  }
}
