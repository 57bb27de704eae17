/** Division facts used by the block and field arithmetic. */
module Arithmetic {

  /** Quotient and remainder are the only pair that recompose the dividend. */
  lemma Euclid(size: nat, q: nat, n: nat, r: nat)
    requires 0 < size
    requires n == size * q + r && r < size
    ensures n / size == q && n % size == r
  {
    var d := n / size - q;
    assert size * d == r - n % size;
    OnlyZeroFits(size, d);
  }

  lemma OnlyZeroFits(size: int, d: int)
    requires 0 < size
    ensures -size < size * d < size ==> d == 0
  {
    assert d >= 1 ==> size * d >= size;
    assert d <= -1 ==> size * d <= size * -1;
  }

  lemma DivMonotone(a: nat, b: nat, d: nat)
    requires 0 < d && a <= b
    ensures a / d <= b / d
  {
    var q, p := a / d, b / d;
    assert q > p ==> d * q >= d * (p + 1);
    assert d * (p + 1) == d * p + d;
  }

  lemma TimesNext(a: nat, n: nat)
    ensures a * (n + 1) == a * n + a
  {
  }
}
