/** Arithmetic shared by the models. */
module Numbers {
  const MAX_UINT16: nat := 0xFFFF

  type uint16 = n: nat | n <= MAX_UINT16

  function Min(a: nat, b: nat): nat { if a <= b then a else b }

  function Max(a: nat, b: nat): nat { if a < b then b else a }

  function Times(count: nat, size: nat): nat { count * size }

  /** Whole steps of `step` in `n` units of `unit`. */
  function Cut(n: nat, unit: nat, step: nat): nat
    requires step > 0
  {
    n * unit / step
  }

  function AlignUp(value: nat, alignment: nat): (r: nat)
    requires alignment > 0
    ensures value <= r < value + alignment
  {
    var q := (value + alignment - 1) / alignment;
    assert q * alignment + (value + alignment - 1) % alignment == value + alignment - 1;
    q * alignment
  }

  /** Quotient and remainder are determined by what defines them. */
  lemma DivisionIs(a: nat, n: nat, q: nat, r: nat)
    requires r < n && a == q * n + r
    ensures a / n == q && a % n == r
  {
    var q', r' := a / n, a % n;
    assert (q - q') * n == r' - r;
    assert q - q' >= 1 ==> (q - q') * n >= n;
    assert q - q' <= -1 ==> (q - q') * n <= -1 * n;
  }

  lemma SmallRemainder(n: nat, x: nat)
    requires x < n
    ensures x % n == x && n % n == 0
  {
  }

  lemma QuotientBounds(a: nat, b: nat)
    requires b > 0
    ensures a / b * b <= a < a / b * b + b
  {
  }

  lemma ProductGrows(a: nat, b: nat, c: nat)
    requires a <= b
    ensures a * c <= b * c
  {
  }

  lemma ProductStep(a: nat, n: nat)
    ensures (a + 1) * n == a * n + n
  {
  }

  lemma LessByProduct(a: nat, b: nat, n: nat)
    requires a * n < b * n
    ensures a < b
  {
    if b <= a {
      ProductGrows(b, a, n);
    }
  }

  lemma AtLeast(a: nat, b: nat, n: nat)
    requires b > 0 && n * b <= a
    ensures n <= a / b
  {
    QuotientBounds(a, b);
    assert (a / b + 1) * b == a / b * b + b;
    LessByProduct(n, a / b + 1, b);
  }
}
