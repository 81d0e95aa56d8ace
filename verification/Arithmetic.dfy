/** Machine integers, and the facts about products and quotients the other modules need. */
module Arithmetic {
  const U32_MAX: nat := 0xFFFF_FFFF
  const U64_MAX: nat := 0xFFFF_FFFF_FFFF_FFFF
  const I64_MAX: int := 0x7FFF_FFFF_FFFF_FFFF
  const I64_MIN: int := -0x8000_0000_0000_0000

  type u8 = x: nat | x < 0x100
  type u32 = x: nat | x <= U32_MAX
  type u64 = x: nat | x <= U64_MAX
  type i32 = x: int | -0x8000_0000 <= x < 0x8000_0000
  type i64 = x: int | I64_MIN <= x <= I64_MAX

  // ---------- products ----------

  lemma Distribute(a: int, b: int, c: int)
    ensures a * (b + c) == a * b + a * c
  {
  }

  lemma Associate(a: int, b: int, c: int)
    ensures a * (b * c) == a * b * c
  {
  }

  lemma ProductNonNegative(a: int, b: int)
    requires a >= 0 && b >= 0
    ensures a * b >= 0
  {
  }

  lemma Multiples(d: int, k: int)
    requires d > 0
    ensures k >= 1 ==> d * k >= d
    ensures k <= -1 ==> d * k <= -d
  {
  }

  // ---------- quotients ----------

  lemma Divide(n: nat, d: nat) returns (q: nat, r: nat)
    requires d > 0
    ensures q == n / d && r == n % d && n == d * q + r && r < d
  {
    q, r := n / d, n % d;
  }

  lemma QuotientIs(n: nat, d: nat, q: nat)
    requires d > 0 && 0 <= n - d * q < d
    ensures n / d == q && n % d == n - d * q
  {
    var q', r' := Divide(n, d);
    Distribute(d, q' - q, q);
    Multiples(d, q' - q);
  }

  lemma OneLess(n: nat, d: nat)
    requires 0 < d <= n
    ensures (n - d) % d == n % d
  {
    var q, r := Divide(n - d, d);
    Distribute(d, q, 1);
    QuotientIs(n, d, q + 1);
  }

  /** Dividing by `p` and then by `m` is dividing by their product. */
  lemma QuotientsNest(n: nat, p: nat, m: nat)
    requires p > 0 && m > 0
    ensures p * m > 0 && n / p == m * (n / (p * m)) + n / p % m
  {
    ProductNonNegative(p - 1, m - 1);
    Distribute(p - 1, m, -1);
    Distribute(m, p - 1, 1);
    var x, low := Divide(n, p);
    var y, z := Divide(x, m);
    Distribute(p, m * y, z);
    Associate(p, m, y);
    ProductNonNegative(p, z);
    ProductNonNegative(p, m - 1 - z);
    Distribute(p, m - 1 - z, z);
    Distribute(p, m, -1);
    QuotientIs(n, p * m, y);
  }
}
