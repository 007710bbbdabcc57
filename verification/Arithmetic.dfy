/** The few facts about multiples and remainders that the other modules need. */
module Arithmetic {
  lemma NonzeroMultiple(k: int, d: int)
    requires d > 0 && k != 0
    ensures k * d >= d || k * d <= -d
  {
    if k > 0 {
      assert (k - 1) * d >= 0;
    } else {
      assert (-k - 1) * d >= 0;
    }
  }

  /** A multiple of `d` strictly between `-d` and `d` is zero. */
  lemma SmallMultiple(k: int, d: int, x: int)
    requires d > 0 && x == k * d && -d < x < d
    ensures k == 0 && x == 0
  {
    if k != 0 {
      NonzeroMultiple(k, d);
      assert false;
    }
  }

  /** Quotient and remainder are determined by their defining property. */
  lemma DivModUnique(x: int, d: int, k: int, r: int)
    requires d > 0 && x == k * d + r && 0 <= r < d
    ensures x / d == k && x % d == r
  {
    var k', r' := x / d, x % d;
    assert x == k' * d + r';
    assert r' - r == (k - k') * d;
    SmallMultiple(k - k', d, r' - r);
  }

  /** Adding a multiple of the modulus does not change the remainder. */
  lemma ModPlusMultiple(x: int, k: int, d: int)
    requires d > 0
    ensures (x + k * d) % d == x % d
  {
    var q, r := x / d, x % d;
    assert x == q * d + r;
    assert x + k * d == (q + k) * d + r;
    DivModUnique(x + k * d, d, q + k, r);
  }

  /** A remainder survives reduction by a multiple of the modulus. */
  lemma ModOfMod(x: nat, d: nat, k: nat)
    requires d > 0 && k > 0
    ensures (x % (k * d)) % d == x % d
  {
    var q, r := x / (k * d), x % (k * d);
    assert x == q * (k * d) + r;
    assert q * (k * d) == (q * k) * d;
    ModPlusMultiple(r, q * k, d);
  }

  /** Adding can be done before or after reduction. */
  lemma ModOfSum(x: nat, y: nat, d: nat)
    requires d > 0
    ensures (x % d + y) % d == (x + y) % d
  {
    var q := x / d;
    assert x == q * d + x % d;
    ModPlusMultiple(x % d + y, q, d);
  }
}
