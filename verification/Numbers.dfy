/**
  Integer widths and the saturating operations the runtime uses on them. All
  quantities are mathematical naturals; where the runtime's type is narrower, the
  operation that could leave it (a saturating add, a checked add, a wrap-around)
  is written out.
 */
module Numbers {
  const U32_MAX: nat := 0xFFFF_FFFF
  const U64_MAX: nat := 0xFFFF_FFFF_FFFF_FFFF
  const U128_MAX: nat := 0xFFFF_FFFF_FFFF_FFFF_FFFF_FFFF_FFFF_FFFF

  /** One LUNES in planck, the unit of every balance. */
  const UNIT: nat := 100_000_000

  datatype Option<+T> = None | Some(value: T)

  datatype Result<+T> = Ok(value: T) | Err(message: string)

  function Min(a: nat, b: nat): nat {
    if a < b then a else b
  }

  function Max(a: nat, b: nat): nat {
    if a < b then b else a
  }

  /** u128 saturating_add */
  function SatAdd(a: nat, b: nat): nat {
    Min(a + b, U128_MAX)
  }

  /** u128 saturating_sub, saturating_reduce */
  function SatSub(a: nat, b: nat): nat {
    if a < b then 0 else a - b
  }

  /** u128 saturating_mul */
  function SatMul(a: nat, b: nat): nat {
    Min(a * b, U128_MAX)
  }

  lemma MulMonotone(d: nat, a: nat, b: nat)
    requires a <= b
    ensures d * a <= d * b
  {
  }

  lemma QuotientMonotone(m: nat, n: nat, d: nat)
    requires d > 0 && m <= n
    ensures m / d <= n / d
  {
    if n / d < m / d {
      var q := n / d + 1;
      assert n < d * q;
      assert d * q <= d * (m / d) by {
        MulMonotone(d, q, m / d);
      }
      assert false;
    }
  }

  lemma {:induction false} DivideTwice(n: nat, d: nat, k: nat)
    requires d > 0 && k > 0
    ensures d * k > 0
    ensures n / (d * k) == (n / d) / k
  {
    var q := n / d;
    var p := q / k;
    var r := n - d * q;
    var s := q - k * p;
    assert 0 <= r < d && 0 <= s < k;
    MulMonotone(d, s + 1, k);
    assert d * (s + 1) == d * s + d;
    assert d * q == d * k * p + d * s by {
      assert q == k * p + s;
      assert d * (k * p + s) == d * (k * p) + d * s;
      assert d * (k * p) == d * k * p;
    }
    assert d * s >= 0;
    QuotientIs(n, d * k, p, d * s + r);
  }

  lemma QuotientIs(n: nat, m: nat, p: nat, rest: nat)
    requires m > 0 && n == m * p + rest && rest < m
    ensures n / m == p
  {
    if n / m < p {
      MulMonotone(m, n / m + 1, p);
      assert false;
    } else if n / m > p {
      MulMonotone(m, p + 1, n / m);
      assert false;
    }
  }
}
