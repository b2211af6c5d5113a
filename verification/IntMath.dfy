/** Facts about integer products, quotients and remainders. */
module IntMath {
  lemma MulMonotone(m: nat, a: int, b: int)
    requires a <= b
    ensures m * a <= m * b
  {
    assert m * b - m * a == m * (b - a);
  }

  /** Quotient and remainder are unique. */
  lemma DivModUnique(n: int, m: nat, q: int, r: nat)
    requires n == m * q + r && r < m
    ensures n / m == q && n % m == r
  {
    var d := q - n / m;
    assert n == m * (n / m) + n % m;
    assert m * d == m * q - m * (n / m);
    if d >= 1 { MulMonotone(m, 1, d); }
    if d <= -1 { MulMonotone(m, d, -1); }
  }

  /** Reducing modulo a multiple of p first changes nothing modulo p. */
  lemma ModOfMod(i: int, p: nat, q: nat, m: nat)
    requires p > 0 && q > 0 && m > 0 && m == p * q
    ensures (i % m) % p == i % p
  {
    var a, r := i / m, i % m;
    var b, c := r / p, r % p;
    Regroup(p, q, a, m);
    assert p * (q * a) + p * b == p * (q * a + b);
    DivModUnique(i, p, q * a + b, c);
  }

  lemma Regroup(p: int, q: int, a: int, m: int)
    requires m == p * q
    ensures m * a == p * (q * a)
  {
  }
}
