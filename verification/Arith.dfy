/** Facts about products and quotients of unknowns, one at a time, for the solver. */
module Arith {

  lemma MulMono(a: int, b: int, c: int)
    requires a <= b && c >= 0
    ensures a * c <= b * c
  {
  }

  lemma MulAssoc(a: int, b: int, c: int)
    ensures a * b * c == a * (b * c)
  {
  }

  lemma MulDistr(a: int, b: int, c: int)
    ensures a * (b + c) == a * b + a * c
  {
  }

  lemma MulStrict(a: int, b: int, c: int)
    requires a < b && c > 0
    ensures c * a < c * b
  {
  }

  lemma CancelMul(a: int, b: int, c: int)
    requires c > 0 && a * c <= b * c
    ensures a <= b
  {
    MulDistr(c, b, 1);
    if a > b {
      MulMono(b + 1, a, c);
    }
  }

  lemma DivBounds(a: int, b: int)
    requires b > 0
    ensures a / b * b <= a < (a / b + 1) * b
  {
    assert a == a / b * b + a % b;
  }

  lemma DivUnique(a: int, b: int, q: int, m: int)
    requires b > 0 && 0 <= m < b && a == q * b + m
    ensures a / b == q
  {
    DivBounds(a, b);
    MulDistr(b, q, 1);
    if a / b > q {
      MulMono(q + 1, a / b, b);
    } else if a / b < q {
      MulMono(a / b + 1, q, b);
    }
  }

  /** A number between lo and hi multiples of w has its quotient there. */
  lemma DivRange(a: int, w: int, lo: int, hi: int)
    requires w > 0 && lo * w <= a < hi * w
    ensures lo <= a / w < hi
  {
    DivBounds(a, w);
    if a / w < lo {
      MulMono(a / w + 1, lo, w);
    } else if a / w >= hi {
      MulMono(hi, a / w, w);
    }
  }

  lemma DivNonNegative(a: int, b: int)
    requires a >= 0 && b > 0
    ensures a / b >= 0
  {
    DivBounds(a, b);
    if a / b < 0 {
      MulMono(a / b + 1, 0, b);
    }
  }
}
