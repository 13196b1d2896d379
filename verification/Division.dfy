/** Quotients and remainders, found by naming them. */
module Division {

  /** What lies `r` behind `q` times `s` has quotient `q` and remainder `r`. */
  lemma DivUnique(n: nat, s: nat, q: nat, r: nat)
    requires s > 0 && r < s && n == q * s + r
    ensures n / s == q && n % s == r
  {
    var x := n / s - q;
    assert n == s * (n / s) + n % s;
    assert s * x == r - n % s;
    assert x >= 1 ==> s * x >= s;
    assert x <= -1 ==> s * x + s <= 0;
  }
}
