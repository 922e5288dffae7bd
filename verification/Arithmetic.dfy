/** Division facts used by the page-indexed structures. */
module Arithmetic {

  lemma MulLess(a: int, b: int, d: int)
    requires a < b && d > 0
    ensures a * d + d <= b * d
  {
    assert (b - a - 1) * d >= 0;
    assert (b - a - 1) * d == b * d - a * d - d;
  }

  /** The quotient is the only number of whole `d`s that fit under `x`. */
  lemma DivIs(x: int, d: int, q: int)
    requires d > 0 && q * d <= x < q * d + d
    ensures x / d == q && x % d == x - q * d
  {
    var p := x / d;
    assert p * d + x % d == x;
    if p < q {
      MulLess(p, q, d);
    } else if q < p {
      MulLess(q, p, d);
    }
  }

  lemma DivBounds(x: int, d: int)
    requires d > 0
    ensures (x / d) * d <= x < (x / d) * d + d
    ensures x == (x / d) * d + x % d
  {
  }

  lemma DivMonotone(x: int, y: int, d: int)
    requires d > 0 && x <= y
    ensures x / d <= y / d
  {
    DivBounds(x, d);
    DivBounds(y, d);
    if y / d < x / d {
      MulLess(y / d, x / d, d);
    }
  }

  /** Quotients, remainders and products that proofs can leave closed. */
  function Quot(x: nat, d: nat): (q: nat)
    requires d > 0
  {
    DivMonotone(0, x, d);
    x / d
  }

  function Rem(x: nat, d: nat): (r: nat)
    requires d > 0
    ensures r < d
  {
    x % d
  }

  function Times(a: nat, b: nat): nat {
    a * b
  }

  lemma TimesOneMore(a: nat, b: nat)
    ensures Times(a + 1, b) == Times(a, b) + b
  {
  }

  lemma TimesMonotone(a: nat, b: nat, n: nat)
    requires a <= b
    ensures Times(a, n) <= Times(b, n)
  {
    assert (b - a) * n >= 0;
    assert (b - a) * n == b * n - a * n;
  }

  /** The first whole multiple of `page` from `x` on. */
  function AlignUp(x: int, page: nat): (r: int)
    requires page > 0
    ensures x <= r < x + page && r % page == 0
    ensures x >= 0 ==> r >= 0
  {
    var q := (x + page - 1) / page;
    DivBounds(x + page - 1, page);
    DivIs(q * page, page, q);
    q * page
  }
}
