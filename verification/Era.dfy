/** The period of the mortal era that both places building transactions choose. */
module Era {
  import opened Numbers

  function Pow2(n: nat): nat {
    if n == 0 then 1 else 2 * Pow2(n - 1)
  }

  /** The least power of two that is at least `n`, found by doubling. */
  function NextPowerOfTwo(n: nat, power: nat): (p: nat)
    requires power > 0
    decreases if power < n then n - power else 0
  {
    if power >= n then power else NextPowerOfTwo(n, 2 * power)
  }

  /** `checked_next_power_of_two` on u32 */
  function CheckedNextPowerOfTwo(n: nat): Option<nat> {
    var p := NextPowerOfTwo(n, 1);
    if p <= U32_MAX then Some(p) else None
  }

  /** `checked_next_power_of_two().map(|c| c / 2).unwrap_or(2)` */
  function Period(blockHashCount: nat): nat {
    var p := CheckedNextPowerOfTwo(blockHashCount);
    if p.Some? then p.value / 2 else 2
  }

  lemma {:induction false} Doubling(n: nat, e: nat)
    requires e == 0 || Pow2(e - 1) < n
    ensures Pow2(e) > 0
    ensures exists k: nat :: NextPowerOfTwo(n, Pow2(e)) == Pow2(k) && n <= Pow2(k) && (k == 0 || Pow2(k - 1) < n)
    decreases if Pow2(e) < n then n - Pow2(e) else 0
  {
    PowerPositive(e);
    if Pow2(e) < n {
      Doubling(n, e + 1);
    }
  }

  lemma {:induction false} PowerPositive(e: nat)
    ensures Pow2(e) > 0
  {
    if e > 0 {
      PowerPositive(e - 1);
    }
  }

  lemma {:induction false} PowersOrdered(a: nat, b: nat)
    requires a <= b
    ensures Pow2(a) <= Pow2(b)
  {
    if a < b {
      PowersOrdered(a, b - 1);
    }
  }

  lemma PowerOf31()
    ensures Pow2(31) == 0x8000_0000
  {
    assert Pow2(8) == 256;
    assert Pow2(16) == 256 * Pow2(8);
    assert Pow2(24) == 256 * Pow2(16);
    assert Pow2(31) == 128 * Pow2(24);
  }

  /**
    The period is the greatest power of two below the block-hash count, and so covers at
    least half of it, exactly for counts from 2 to 2^31; smaller ones give zero, larger
    ones the fallback of two.
   */
  lemma PeriodIff(n: nat)
    ensures (exists k: nat :: Period(n) == Pow2(k) && Pow2(k) < n <= 2 * Pow2(k)) <==> 2 <= n <= 0x8000_0000
    ensures n < 2 ==> Period(n) == 0
    ensures n > 0x8000_0000 ==> Period(n) == 2
  {
    Doubling(n, 0);
    var k: nat :| NextPowerOfTwo(n, 1) == Pow2(k) && n <= Pow2(k) && (k == 0 || Pow2(k - 1) < n);
    PowerOf31();
    if n <= 0x8000_0000 {
      if k > 31 {
        PowersOrdered(31, k - 1);
      }
      PowersOrdered(k, 31);
      if n >= 2 {
        assert Period(n) == Pow2(k - 1) && Pow2(k - 1) < n <= 2 * Pow2(k - 1);
      } else {
        assert Period(n) == 0;
        forall j: nat ensures Pow2(j) > 0 { PowerPositive(j); }
      }
    } else {
      if k <= 31 {
        PowersOrdered(k, 31);
      }
      PowersOrdered(32, k);
      assert Pow2(32) == 2 * Pow2(31);
      assert Period(n) == 2;
    }
  }
}
