// Facts about integer division used by more than one module.
module Arithmetic {

  lemma QuotientIs(x: int, c: int, i: int)
    requires c > 0
    ensures i == x / c <==> c * i <= x < c * i + c
  {
    var q, m := x / c, x % c;
    assert x == c * q + m && 0 <= m < c;
    if i < q {
      NextMultiple(c, i, q);
    } else if i > q {
      NextMultiple(c, q, i);
    }
  }

  lemma NextMultiple(c: int, a: int, b: int)
    requires c > 0 && a < b
    ensures c * a + c <= c * b
  {
    var d := b - a - 1;
    assert c * d >= 0 && c * b == c * a + c + c * d;
  }
}
