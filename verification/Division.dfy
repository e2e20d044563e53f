/** The few facts about integer division the models rest on. */
module Division {

  /** A quotient is the number of whole divisors below. */
  lemma QuotientIs(a: int, d: int, q: int)
    requires d > 0 && q * d <= a < (q + 1) * d
    ensures a / d == q && a % d == a - q * d
  {
    var k, r := a / d, a % d;
    assert a == k * d + r && 0 <= r < d;
    if k < q {
      Times(k + 1, q, d);
    } else if k > q {
      Times(q + 1, k, d);
    }
  }

  lemma Quotient(a: int, d: int)
    requires d > 0
    ensures (a / d) * d <= a < (a / d + 1) * d
    ensures a % d == a - (a / d) * d && 0 <= a % d < d
  {
    assert a == (a / d) * d + a % d;
    assert (a / d + 1) * d == (a / d) * d + d;
  }

  lemma NextMultiple(i: int, d: int)
    ensures (i + 1) * d == i * d + d
  {
  }

  lemma Times(a: int, b: int, d: int)
    requires a <= b && d >= 0
    ensures a * d <= b * d
  {
    assert (b - a) * d >= 0;
  }

  /** Comparing with a quotient is comparing with a multiple. */
  lemma QuotientBelow(a: int, d: int, q: int)
    requires d > 0
    ensures a / d < q <==> a < q * d
    ensures q <= a / d <==> q * d <= a
  {
    Quotient(a, d);
    if a / d < q {
      Times(a / d + 1, q, d);
    } else {
      Times(q, a / d, d);
    }
  }

  /** The division that rounds up. */
  function CeilDiv(a: int, d: int): int
    requires d > 0
  {
    (a + d - 1) / d
  }

  lemma CeilAbove(a: int, d: int, q: int)
    requires d > 0
    ensures q < CeilDiv(a, d) <==> q * d < a
    ensures CeilDiv(a, d) <= q <==> a <= q * d
  {
    QuotientBelow(a + d - 1, d, q + 1);
    assert (q + 1) * d == q * d + d;
  }

  lemma CeilGrows(a: int, b: int, d: int)
    requires d > 0 && a <= b
    ensures CeilDiv(a, d) <= CeilDiv(b, d)
  {
    var q := CeilDiv(b, d);
    CeilAbove(b, d, q);
    CeilAbove(a, d, q);
  }
}
