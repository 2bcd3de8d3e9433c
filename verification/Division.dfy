/** Quotient and remainder are unique: what alignments and bucket masks rest on. */
module Division {

  lemma Multiple(k: int, d: nat)
    ensures (k >= 0 ==> k * d >= 0) && (k >= 1 ==> k * d >= d) && (k <= -1 ==> k * d + d <= 0)
  {
  }

  lemma Distribute(p: int, q: int, d: int)
    ensures (p - q) * d == p * d - q * d
  {
  }

  lemma DivUnique(n: nat, d: nat, q: nat, r: nat)
    requires d > 0 && r < d && n == q * d + r
    ensures n / d == q && n % d == r
  {
    var p, m := n / d, n % d;
    assert n == p * d + m;
    Multiple(p - q, d);
    Distribute(p, q, d);
  }
}
