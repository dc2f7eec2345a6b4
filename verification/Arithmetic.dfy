/** Small arithmetic shared by the other modules. */
module Arithmetic {
  function Min(a: nat, b: nat): nat {
    if a <= b then a else b
  }

  lemma {:induction false} QuotientIsUnique(f: nat, q: nat, r: nat, q': nat, r': nat)
    requires q * f + r == q' * f + r' && r < f && r' < f
    ensures q == q' && r == r'
  {
    assert q' * f - q * f == (q' - q) * f && q * f - q' * f == (q - q') * f;
    if q' > q {
      AtLeast(q' - q, f);
    } else if q > q' {
      AtLeast(q - q', f);
    }
  }

  lemma {:induction false} AtLeast(m: nat, f: nat)
    requires m >= 1
    ensures m * f >= f
  {
  }

  lemma {:induction false} DivisionIsUnique(n: nat, f: nat, q: nat, r: nat)
    requires f >= 1 && n == q * f + r && r < f
    ensures n / f == q && n % f == r
  {
    QuotientIsUnique(f, q, r, n / f, n % f);
  }

  lemma {:induction false} QuotientBelow(n: nat, f: nat, k: nat)
    requires f >= 1
    ensures n / f < k <==> n < k * f
  {
    var q := n / f;
    assert n == q * f + n % f;
    if q < k {
      assert k * f == q * f + (k - q) * f;
      AtLeast(k - q, f);
    } else {
      assert q * f == k * f + (q - k) * f;
    }
  }
}
