// Division with remainder, in steps small enough for the verifier.

module Division {

  lemma MulMono(a: int, b: int, p: int)
    requires a <= b && p >= 0
    ensures a * p <= b * p
  {
  }

  lemma Unique(q: int, r: int, q': int, r': int, p: int)
    requires q * p + r == q' * p + r' && 0 <= r < p && 0 <= r' < p
    ensures q == q' && r == r'
  {
    if q < q' {
      MulMono(q + 1, q', p);
    } else if q' < q {
      MulMono(q' + 1, q, p);
    }
  }

  lemma Parts(v: int, p: int)
    requires p > 0
    ensures v == (v / p) * p + v % p && 0 <= v % p < p
    ensures v >= 0 ==> v / p >= 0
  {
  }

  lemma Quotient(v: int, q: int, r: int, p: int)
    requires p > 0 && v == q * p + r && 0 <= r < p
    ensures v / p == q && v % p == r
  {
    Parts(v, p);
    Unique(q, r, v / p, v % p, p);
  }

  lemma Expand(Q: int, p: int, R: int, b: int)
    ensures (Q * p + R) * b == Q * (b * p) + R * b
  {
  }

  lemma TwoDigits(R: int, r: int, b: int, p: int)
    requires 0 <= R < p && 0 <= r < b
    ensures 0 <= R * b + r < b * p
  {
    MulMono(R + 1, p, b);
    MulMono(0, R, b);
  }

  lemma NestedParts(v: int, b: int, p: int, q: int, r: int, Q: int, R: int)
    requires b > 0 && p > 0 && b * p > 0
    requires v == q * b + r && 0 <= r < b && q == Q * p + R && 0 <= R < p
    ensures v / (b * p) == Q && v % (b * p) == R * b + r
    ensures (R * b + r) / b == R && (R * b + r) % b == r
  {
    Expand(Q, p, R, b);
    TwoDigits(R, r, b, p);
    Quotient(v, Q, R * b + r, b * p);
    Quotient(R * b + r, R, r, b);
  }

  /** Dividing by b and then by p, against dividing by b * p. */
  lemma Nested(v: int, b: int, p: int)
    requires v >= 0 && b > 0 && p > 0 && b * p > 0
    ensures v / (b * p) == (v / b) / p
    ensures (v % (b * p)) / b == (v / b) % p
    ensures (v % (b * p)) % b == v % b
  {
    var q, r := v / b, v % b;
    Parts(v, b);
    Parts(q, p);
    NestedParts(v, b, p, q, r, q / p, q % p);
  }

  /** The quotient is below k exactly when the dividend is below k times p. */
  lemma Below(v: int, p: int, k: int)
    requires p > 0
    ensures v / p < k <==> v < k * p
  {
    Parts(v, p);
    if v / p < k {
      MulMono(v / p + 1, k, p);
    } else {
      MulMono(k, v / p, p);
    }
  }
}
