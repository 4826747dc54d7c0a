// Products, quotients and remainders by a variable, in the few forms needed.
module Arithmetic {

  // A product to reason about as a whole.
  function Times(a: int, b: int): int {
    a * b
  }

  function CeilDiv(x: nat, d: nat): int
    requires d > 0
  {
    (x + d - 1) / d
  }

  lemma MulBelow(a: int, b: int, d: nat)
    ensures a < b ==> a * d + d <= b * d
  {
    if a < b {
      var k: nat := b - a - 1;
      assert (a + 1 + k) * d == a * d + d + k * d;
      assert k * d >= 0;
    }
  }

  lemma {:induction false} MulGrows(x: nat, d: nat)
    requires d > 0
    ensures x * d >= x
  {
    if x == 0 {
    } else {
      MulGrows(x - 1, d);
      assert x * d == (x - 1) * d + d;
    }
  }

  lemma FloorUnique(v: int, d: nat, q: int)
    requires d > 0 && q * d <= v < q * d + d
    ensures v / d == q
  {
    assert v == v / d * d + v % d;
    MulBelow(v / d, q, d);
    MulBelow(q, v / d, d);
  }

  lemma ModUnique(x: int, d: nat, q: int, r: nat)
    requires d > 0 && x == q * d + r && r < d
    ensures x % d == r
  {
    FloorUnique(x, d, q);
  }

  lemma DivBound(x: nat, d: nat)
    requires d > 0
    ensures 0 <= x / d <= x
  {
    MulBelow(x / d, 0, d);
    MulBelow(x, x / d, d);
    MulGrows(x, d);
    assert x == x / d * d + x % d;
  }

  lemma DivBelow(x: nat, d: nat, limit: nat)
    requires d > 0
    ensures x / d < limit <==> x < limit * d
  {
    assert x == x / d * d + x % d;
    MulBelow(x / d, limit, d);
    MulBelow(limit - 1, x / d, d);
  }

  lemma TimesSucc(n: nat, d: nat)
    ensures Times(n + 1, d) == Times(n, d) + d && Times(0, d) == 0
    ensures Times(n, d) >= 0
  {
  }

  // The smallest number of periods that covers x is the rounded-up quotient.
  lemma CeilExact(x: nat, d: nat, m: nat)
    requires d > 0
    ensures CeilDiv(x, d) >= 0
    ensures Times(m, d) >= x <==> m >= CeilDiv(x, d)
  {
    var q := CeilDiv(x, d);
    assert x + d - 1 == q * d + (x + d - 1) % d;
    DivBound(x + d - 1, d);
    MulBelow(m, q, d);
    MulBelow(q, m, d);
  }
}
