/** Error numbers the block layer returns, negated. */
module Errno {
  const EIO: int := 5
  const EAGAIN: int := 11
  const EACCES: int := 13
  const EINVAL: int := 22
  const ENOTSUP: int := 95
  const ENOMEDIUM: int := 123
}

module Options {
  datatype Option<T> = None | Some(value: T)
}

module Arithmetic {

  lemma MulMonotone(a: nat, b: int, c: int)
    requires b <= c
    ensures a * b <= a * c
  {
  }

  /** Quotient and remainder are determined by what they add up to. */
  lemma DivMod(i: int, n: nat, q: int, r: nat)
    requires i == n * q + r && r < n
    ensures i / n == q && i % n == r
  {
    if i / n < q { MulMonotone(n, i / n + 1, q); }
    if i / n > q { MulMonotone(n, q + 1, i / n); }
  }

  lemma Regroup(a: nat, b: nat, q: nat, r: nat)
    ensures a * (b * q + r) == a * b * q + a * r
  {
  }

  lemma Below(a: nat, b: nat, r: nat, m: nat)
    requires r < b && m < a
    ensures a * r + m < a * b
  {
    MulMonotone(a, r + 1, b);
  }

  lemma Quotient(v: nat, a: nat, b: nat, w: nat, m: nat, q: nat, r: nat, ab: nat)
    requires v == a * w + m && m < a && w == b * q + r && r < b && ab == a * b && ab > 0
    ensures v / ab == q
  {
    Regroup(a, b, q, r);
    Below(a, b, r, m);
    DivMod(v, ab, q, a * r + m);
  }

  /** Dividing twice is dividing by the product. */
  lemma DivTwice(v: nat, a: nat, b: nat)
    requires a > 0 && b > 0 && a * b > 0
    ensures v / a / b == v / (a * b)
  {
    Quotient(v, a, b, v / a, v % a, v / a / b, v / a % b, a * b);
  }

  /** How many values n bytes have. */
  function Pow256(n: nat): (p: nat)
    ensures p > 0
  {
    if n == 0 then 1 else 256 * Pow256(n - 1)
  }
}
