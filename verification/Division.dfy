/** The one fact about Euclidean division that the other modules rest on. */
module Division {

  lemma NonzeroMultiple(k: int, b: int)
    requires b > 0 && k != 0
    ensures k * b <= -b || b <= k * b
  {
    if k >= 1 {
      assert (k - 1) * b >= 0;
    } else {
      assert (-k - 1) * b >= 0;
    }
  }

  /** Quotient and remainder are unique. */
  lemma DivUnique(n: int, b: int, q: int, r: int)
    requires b > 0 && n == q * b + r && 0 <= r < b
    ensures n / b == q && n % b == r
  {
    var k := n / b - q;
    assert k * b == r - n % b;
    if k != 0 {
      NonzeroMultiple(k, b);
    }
  }
}
