/** Integer division as C defines it, and the limit of a short. */
module CInt {

  const SHRT_MAX: int := 32767

  /** Towards zero. */
  function CDiv(a: int, b: int): (q: int)
    requires b > 0
  {
    if a >= 0 then a / b else -(-a / b)
  }

  lemma MulKeepsOrder(x: int, y: int, n: int)
    requires x <= y && n >= 0
    ensures x * n <= y * n
  {
  }

  lemma MulReflectsOrder(x: int, y: int, n: int)
    requires n > 0 && x * n < y * n
    ensures x < y
  {
  }

  /** The quotient is the number of times that `n` fits. */
  lemma Fits(a: int, n: int)
    requires n > 0
    ensures a / n * n <= a < (a / n + 1) * n
  {
    assert a == a / n * n + a % n;
  }

  lemma DivGrows(a: int, b: int, n: int)
    requires a <= b && n > 0
    ensures a / n <= b / n
  {
    Fits(a, n);
    Fits(b, n);
    MulReflectsOrder(a / n, b / n + 1, n);
  }

  lemma DivIs(a: int, n: int, q: int)
    requires n > 0 && q * n <= a < (q + 1) * n
    ensures a / n == q
  {
    Fits(a, n);
    MulReflectsOrder(q, a / n + 1, n);
    MulReflectsOrder(a / n, q + 1, n);
  }

  lemma DivAdds(x: int, y: int, n: int)
    requires n > 0
    ensures (x * n + y) / n == x + y / n
  {
    var q := y / n;
    Fits(y, n);
    assert (x + q) * n == x * n + q * n;
    assert (x + q + 1) * n == x * n + (q + 1) * n;
    DivIs(x * n + y, n, x + q);
  }

  function Abs(x: int): nat {
    if x < 0 then -x else x
  }

  /** Division rounds towards zero and keeps the sign. */
  lemma CDivIs(a: int, n: int)
    requires n > 0
    ensures Abs(CDiv(a, n)) * n <= Abs(a) < (Abs(CDiv(a, n)) + 1) * n
    ensures (a >= 0 ==> CDiv(a, n) >= 0) && (a <= 0 ==> CDiv(a, n) <= 0)
  {
    Fits(Abs(a), n);
    DivGrows(0, Abs(a), n);
    DivIs(0, n, 0);
  }

  lemma CDivGrows(a: int, b: int, n: int)
    requires a <= b && n > 0
    ensures CDiv(a, n) <= CDiv(b, n)
  {
    DivGrows(a, b, n);
    DivGrows(-b, -a, n);
    if b >= 0 { DivGrows(0, b, n); }
    if a <= 0 { DivGrows(0, -a, n); }
    DivIs(0, n, 0);
  }

  lemma CDivExact(a: int, n: int)
    requires n > 0
    ensures CDiv(a * n, n) == a
  {
    DivIs(a * n, n, a);
    DivIs(-a * n, n, -a);
    assert -(a * n) == -a * n;
    if a < 0 { MulKeepsOrder(a, -1, n); } else { MulKeepsOrder(0, a, n); }
  }

  lemma CDivOdd(a: int, n: int)
    requires n > 0
    ensures CDiv(-a, n) == -CDiv(a, n)
  {
  }

  /** Dividing what is at most `m` times `n` gives at most `m`. */
  lemma CDivBounded(a: int, n: int, m: int)
    requires n > 0 && m >= 0 && -(m * n) <= a <= m * n
    ensures -m <= CDiv(a, n) <= m
  {
    CDivGrows(a, m * n, n);
    CDivGrows(-m * n, a, n);
    CDivExact(m, n);
    CDivExact(-m, n);
  }
}
