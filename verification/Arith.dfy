/** The few facts about products and quotients that the arithmetic proofs rest on. */
module Arith {

  lemma MulMono(a: int, b: int, c: nat)
    requires a <= b
    ensures a * c <= b * c
  {
  }

  lemma Distribute(a: int, b: int, c: int)
    ensures (a + b) * c == a * c + b * c
    ensures (a - b) * c == a * c - b * c
    ensures c * (a + b) == c * a + c * b
  {
  }

  lemma DivMod(x: int, t: int)
    requires t > 0
    ensures x == (x / t) * t + x % t && 0 <= x % t < t
  {
  }

  /** Quotient and remainder are the only q and r with x == q * t + r and 0 <= r < t. */
  lemma DivUnique(x: int, t: int, q: int, r: int)
    requires x == q * t + r && 0 <= r < t
    ensures x / t == q && x % t == r
  {
    var k, e := x / t, x % t;
    DivMod(x, t);
    Distribute(q, 1, t);
    Distribute(k, 1, t);
    if k > q {
      MulMono(q + 1, k, t);
    } else if k < q {
      MulMono(k + 1, q, t);
    }
  }

  /** Comparing products by a positive factor compares the factors. */
  lemma MulCancel(a: int, b: int, t: int)
    requires t > 0
    ensures a * t <= b * t ==> a <= b
    ensures a * t < b * t ==> a < b
    ensures a * t < b * t + t ==> a <= b
  {
    Distribute(b, 1, t);
    if a > b {
      MulMono(b + 1, a, t);
    }
  }
}
