/** Integer arithmetic shared by the models: quotients, rounding and fixed widths. */
module Arithmetic {

  const TWO_16 := 0x1_0000
  const TWO_24 := 0x100_0000
  const TWO_32 := 0x1_0000_0000
  const TWO_64 := 0x1_0000_0000_0000_0000

  const MAX_SAMPLE := 0x7F_FFFF
  const MIN_SAMPLE := -0x80_0000

  function Abs(x: int): nat {
    if x < 0 then -x else x
  }

  function Min(x: int, y: int): int {
    if x < y then x else y
  }

  function Max(x: int, y: int): int {
    if x < y then y else x
  }

  function Clamp(x: int, low: int, high: int): int {
    if x < low then low else if x > high then high else x
  }

  predicate Is24Bit(sample: int) {
    MIN_SAMPLE <= sample <= MAX_SAMPLE
  }

  predicate Are24Bit(samples: seq<int>) {
    forall i | 0 <= i < |samples| :: Is24Bit(samples[i])
  }

  /** The least integer not below the quotient. */
  function CeilDiv(x: int, d: int): int
    requires d > 0
  {
    (x + d - 1) / d
  }

  lemma MulMonotone(a: int, b: int, k: int)
    requires a <= b && 0 <= k
    ensures a * k <= b * k
  {
  }

  lemma QuotientUnique(d: int, q: int, r: int, q': int, r': int)
    requires 0 <= r < d && 0 <= r' < d && q * d + r == q' * d + r'
    ensures q == q' && r == r'
  {
    if q > q' {
      MulMonotone(q' + 1, q, d);
    } else if q < q' {
      MulMonotone(q + 1, q', d);
    }
  }

  lemma DivModUnique(p: int, d: int, q: int, r: int)
    requires d > 0 && 0 <= r < d && p == q * d + r
    ensures p / d == q && p % d == r
  {
    QuotientUnique(d, q, r, p / d, p % d);
  }

  /** A quotient is at least `m` exactly when the dividend reaches `m` divisors. */
  lemma DivAtLeast(p: int, d: int, m: int)
    requires d > 0
    ensures p / d >= m <==> p >= m * d
  {
    var q, r := p / d, p % d;
    assert p == q * d + r;
    if q >= m {
      assert q * d >= m * d;
    } else {
      assert (q + 1) * d <= m * d;
    }
  }

  lemma CeilDivAtMost(p: int, d: int, m: int)
    requires d > 0
    ensures CeilDiv(p, d) <= m <==> p <= m * d
  {
    DivAtLeast(p + d - 1, d, m + 1);
    assert (m + 1) * d == m * d + d;
  }

  lemma DivMonotone(p: int, p': int, d: int)
    requires d > 0 && p <= p'
    ensures p / d <= p' / d
  {
    DivAtLeast(p', d, p / d);
    DivAtLeast(p, d, p / d);
  }

  lemma MulOneMore(a: int, b: int, k: int)
    requires a == b + 1
    ensures a * k == k + b * k
  {
  }

  lemma MulDistributes(a: int, b: int, k: int)
    ensures (a + b) * k == a * k + b * k
  {
  }

  lemma DivModParts(p: int, d: int)
    requires d > 0
    ensures p == p / d * d + p % d && 0 <= p % d < d
    ensures p >= 0 ==> p / d >= 0
  {
    DivAtLeast(p, d, 0);
  }

  lemma MulAssociates(a: int, b: int, c: int)
    ensures (a * b) * c == a * (b * c)
  {
  }

  /** Remainders by a divisor of the word size are those of the unwrapped number. */
  lemma WrapKeepsRemainder(x: int, d: int, k: int)
    requires d > 0 && k > 0
    ensures (x % (d * k)) % d == x % d
  {
    assert d * k > 0;
    var q, r := x / (d * k), x % (d * k);
    assert x == q * (d * k) + r;
    assert x == (q * k) * d + r;
    var s, t := r / d, r % d;
    assert r == s * d + t;
    assert x == (q * k + s) * d + t by {
      assert (q * k + s) * d == (q * k) * d + s * d;
    }
    DivModUnique(x, d, q * k + s, t);
  }

  /** A sum of remainders names the same class as the remainder of the sum. */
  lemma ModAdd(x: int, y: int, d: int)
    requires d > 0
    ensures (x % d + y) % d == (x + y) % d
  {
    var z := x % d + y;
    assert x + y == (x / d + z / d) * d + z % d by {
      assert x == (x / d) * d + x % d;
      assert z == (z / d) * d + z % d;
      assert (x / d + z / d) * d == (x / d) * d + (z / d) * d;
    }
    DivModUnique(x + y, d, x / d + z / d, z % d);
  }
}
