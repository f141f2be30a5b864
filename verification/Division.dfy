/**
 Quotients and remainders by a divisor that is not constant.
 */
module Division {
  lemma Distribute(a: nat, b: nat, width: nat)
    ensures (a + b) * width == a * width + b * width
  {
  }

  lemma MultiplesApart(a: nat, b: nat, width: nat)
    requires a < b
    ensures b * width >= a * width + width
  {
    Distribute(a, b - a, width);
    Distribute(1, b - a - 1, width);
  }

  lemma SameQuotient(p: nat, q: nat, r: nat, s: nat, width: nat)
    requires p * width + r == q * width + s && r < width && s < width
    ensures p == q && r == s
  {
    if p > q {
      MultiplesApart(q, p, width);
    } else if p < q {
      MultiplesApart(p, q, width);
    }
  }

  lemma Quotient(q: nat, r: nat, width: nat)
    requires r < width
    ensures (q * width + r) / width == q && (q * width + r) % width == r
  {
    var m := q * width + r;
    SameQuotient(m / width, q, m % width, r, width);
  }

  lemma Regroup(q: nat, p: nat, a: nat)
    ensures q * p * a == q * (p * a)
  {
  }

  lemma Digits(m: nat, q: nat, r: nat, s: nat, p: nat, a: nat)
    requires m == q * p + r && r < p && s < a
    ensures (m * a + s) / (p * a) == q
  {
    Distribute(q * p, r, a);
    Regroup(q, p, a);
    MultiplesApart(r, p, a);
    Quotient(q, r * a + s, p * a);
  }

  lemma Divide(n: nat, a: nat) returns (q: nat, r: nat)
    requires a >= 1
    ensures n == q * a + r && r < a && q == n / a
  {
    q, r := n / a, n % a;
  }

  /** Dividing by a product is dividing by one factor and then by the other. */
  lemma QuotientOfQuotient(n: nat, a: nat, p: nat)
    requires a >= 1 && p >= 1
    ensures n / (p * a) == n / a / p
  {
    var m, s := Divide(n, a);
    var q, r := Divide(m, p);
    Digits(m, q, r, s, p, a);
  }
}
