/** Products of two variables, for which the verifier wants to be asked one step at a time. */
module Products {

  lemma OneMore(k: nat, b: nat)
    ensures (k + 1) * b == k * b + b
  {
  }

  lemma ProductMonotone(x: nat, y: nat, b: nat)
    requires x <= y
    ensures x * b <= y * b
  {
  }

  lemma NextMultiple(u: nat, h: nat)
    requires h > 0 && u % h == 0
    ensures (u + h) % h == 0
  {
    var k := u / h;
    assert u == k * h;
    OneMore(k, h);
    MultipleOf(k + 1, h);
  }

  lemma MultipleOf(k: nat, h: nat)
    requires h > 0
    ensures (k * h) % h == 0
  {
    var x := k * h;
    var q, m := x / h, x % h;
    assert x == q * h + m && m < h;
    QuotientIs(k, q, h, m);
  }

  lemma QuotientIs(k: nat, q: nat, h: nat, m: nat)
    requires k * h == q * h + m && m < h
    ensures k == q && m == 0
  {
    OneMore(q, h);
    OneMore(k, h);
    if q < k { ProductMonotone(q + 1, k, h); }
    if k < q { ProductMonotone(k + 1, q, h); }
  }

  lemma NoMultipleBetween(u: nat, v: nat, h: nat)
    requires h > 0 && u % h == 0 && u < v < u + h
    ensures v % h != 0
  {
    var j, k := u / h, v / h;
    assert u == j * h && v == k * h + v % h;
    if v % h == 0 {
      OneMore(j, h);
      if k <= j { ProductMonotone(k, j, h); } else { ProductMonotone(j + 1, k, h); }
    }
  }
}
