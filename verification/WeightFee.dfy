/** `WeightToFeeLunes` and the inclusion fee built from it. */
module WeightFee {
  import opened Numbers

  const PROOF_SIZE_FEE_MULTIPLIER: nat := 1
  const MINIMUM_WEIGHT_FEE: nat := 1_000
  const WEIGHT_FEE_DIVISOR: nat := 1_380
  const TRANSACTION_BYTE_FEE: nat := 10

  /** Both components are u64 in the runtime. */
  datatype Weight = Weight(refTime: nat, proofSize: nat) {
    predicate Fits() { refTime <= U64_MAX && proofSize <= U64_MAX }

    /** u64 saturating addition of both components, as weights add up. */
    function Plus(other: Weight): Weight {
      Weight(Min(refTime + other.refTime, U64_MAX), Min(proofSize + other.proofSize, U64_MAX))
    }

    function Capped(limit: Weight): Weight {
      Weight(Min(refTime, limit.refTime), Min(proofSize, limit.proofSize))
    }

    predicate Below(other: Weight) { refTime <= other.refTime && proofSize <= other.proofSize }
  }

  /** The block's weight limit, to which the payment pallet caps a weight: 2 s of compute. */
  const MAX_BLOCK: Weight := Weight(2_000_000_000_000, U64_MAX)

  function Unfloored(divisor: nat, w: Weight): nat
    requires divisor > 0
  {
    SatAdd(w.refTime, SatMul(w.proofSize, PROOF_SIZE_FEE_MULTIPLIER)) / divisor
  }

  function WeightToFeeWith(divisor: nat, w: Weight): nat
    requires divisor > 0
  {
    Max(Unfloored(divisor, w), MINIMUM_WEIGHT_FEE)
  }

  function WeightToFee(w: Weight): nat {
    WeightToFeeWith(WEIGHT_FEE_DIVISOR, w)
  }

  /** No step of the conversion saturates on u64 weights, for any divisor. */
  lemma NeverSaturates(w: Weight, divisor: nat)
    requires w.Fits() && divisor > 0
    ensures Unfloored(divisor, w) == (w.refTime + w.proofSize) / divisor
  {
  }

  /** The fee as numbers: both components, by 1380, and never below 1000 planck. */
  lemma WeightToFeeExact(w: Weight)
    requires w.Fits()
    ensures WeightToFee(w) == Max((w.refTime + w.proofSize) / 1380, 1000)
    ensures WeightToFee(Weight(274_090_000, 3_593)) == 198_618
  {
  }

  lemma FeeMonotone(a: Weight, b: Weight)
    requires a.Fits() && b.Fits() && a.Below(b)
    ensures WeightToFee(a) <= WeightToFee(b)
  {
  }

  /** Charging two weights together or apart differs by at most the floor below and one above. */
  lemma FeeNearlyAdditive(a: Weight, b: Weight)
    requires a.Fits() && b.Fits()
    requires a.refTime + b.refTime <= U64_MAX && a.proofSize + b.proofSize <= U64_MAX
    ensures WeightToFee(a) + WeightToFee(b) - MINIMUM_WEIGHT_FEE <= WeightToFee(a.Plus(b))
    ensures WeightToFee(a.Plus(b)) <= WeightToFee(a) + WeightToFee(b) + 1
  {
  }

  // ---- Recalibration ----

  /** Multiplying the divisor by k divides every un-floored fee by k, exactly. */
  lemma Recalibrated(divisor: nat, k: nat, w: Weight)
    requires divisor > 0 && k > 0 && w.Fits()
    ensures divisor * k > 0
    ensures Unfloored(divisor * k, w) == Unfloored(divisor, w) / k
  {
    NeverSaturates(w, divisor);
    DivideTwice(w.refTime + w.proofSize, divisor, k);
    NeverSaturates(w, divisor * k);
  }

  /** Two recalibrations, by j and then by k, are one by j * k, and divide by both in turn. */
  lemma RecalibrationsCompose(divisor: nat, j: nat, k: nat, w: Weight)
    requires divisor > 0 && j > 0 && k > 0 && w.Fits()
    ensures divisor * j > 0 && divisor * j * k > 0 && j * k > 0
    ensures Unfloored(divisor * j * k, w) == (Unfloored(divisor, w) / j) / k
    ensures Unfloored(divisor * j * k, w) == Unfloored(divisor, w) / (j * k)
  {
    Recalibrated(divisor, j, w);
    Recalibrated(divisor * j, k, w);
    DivideTwice(Unfloored(divisor, w), j, k);
  }

  /**
    The documentation says that doubling the divisor halves every fee. With the floor
    that is so exactly when the un-floored fee still reaches the floor after division.
   */
  lemma RecalibrationScalesFeeIff(divisor: nat, k: nat, w: Weight)
    requires divisor > 0 && k > 0 && w.Fits()
    ensures divisor * k > 0
    ensures WeightToFeeWith(divisor * k, w) == WeightToFeeWith(divisor, w) / k
            <==> k == 1 || Unfloored(divisor, w) >= MINIMUM_WEIGHT_FEE * k
  {
    Recalibrated(divisor, k, w);
    var u := Unfloored(divisor, w);
    if u >= 1000 * k {
      QuotientMonotone(1000 * k, u, k);
      QuotientIs(1000 * k, k, 1000, 0);
      MulMonotone(1000, 1, k);
    } else {
      assert u / k < 1000 by {
        if u / k >= 1000 {
          MulMonotone(k, 1000, u / k);
          assert false;
        }
      }
      if k > 1 {
        QuotientBelow(1000, k);
        if u >= 1000 {
          assert Max(u, 1000) / k == u / k;
        } else {
          assert Max(u, 1000) / k == 1000 / k;
        }
      } else {
        assert Max(u, 1000) / 1 == Max(u, 1000);
      }
    }
  }

  /** A weight whose fee of 1500 planck doubling the divisor brings to 1000, not to 750. */
  lemma DoublingDoesNotHalve()
    ensures var w := Weight(2_070_000, 0);
            && WeightToFee(w) == 1500
            && WeightToFeeWith(2 * WEIGHT_FEE_DIVISOR, w) == 1000 != WeightToFee(w) / 2
  {
  }

  /** Recalibrating keeps the order between operations, floor included. */
  lemma RecalibrationKeepsOrder(divisor: nat, k: nat, a: Weight, b: Weight)
    requires divisor > 0 && k > 0 && a.Fits() && b.Fits()
    requires WeightToFeeWith(divisor, a) <= WeightToFeeWith(divisor, b)
    ensures divisor * k > 0
    ensures WeightToFeeWith(divisor * k, a) <= WeightToFeeWith(divisor * k, b)
  {
    Recalibrated(divisor, k, a);
    Recalibrated(divisor, k, b);
    var u, v := Unfloored(divisor, a), Unfloored(divisor, b);
    if u <= v {
      QuotientMonotone(u, v, k);
    } else {
      if k > 1 && u > 0 {
        QuotientBelow(u, k);
      }
      assert u / 1 == u;
    }
  }

  lemma QuotientBelow(n: nat, k: nat)
    requires k > 1 && n > 0
    ensures n / k < n
  {
    if n / k >= n {
      MulMonotone(k, n, n / k);
      assert k * n >= 2 * n by {
        MulMonotone(n, 2, k);
      }
      assert false;
    }
  }

  // ---- The inclusion fee ----

  datatype Extrinsic = Extrinsic(weight: Weight, length: nat)

  /** Base fee, capped weight fee and byte fee; the fee multiplier is the constant one. */
  function InclusionFee(base: Weight, x: Extrinsic): nat {
    SatAdd(SatAdd(WeightToFee(base.Capped(MAX_BLOCK)), SatMul(x.length, TRANSACTION_BYTE_FEE)),
           WeightToFee(x.weight.Capped(MAX_BLOCK)))
  }

  predicate Sendable(x: Extrinsic) {
    x.weight.Fits() && x.length <= U32_MAX
  }

  function TotalFee(base: Weight, xs: seq<Extrinsic>): nat {
    if xs == [] then 0 else InclusionFee(base, xs[0]) + TotalFee(base, xs[1..])
  }

  function TotalWeight(xs: seq<Extrinsic>): Weight {
    if xs == [] then Weight(0, 0) else xs[0].weight.Plus(TotalWeight(xs[1..]))
  }

  function TotalLength(xs: seq<Extrinsic>): nat {
    if xs == [] then 0 else xs[0].length + TotalLength(xs[1..])
  }

  /** On sendable extrinsics nothing saturates, and the fee is positive. */
  lemma InclusionFeeExact(base: Weight, x: Extrinsic)
    requires base.Fits() && Sendable(x)
    ensures InclusionFee(base, x) ==
            WeightToFee(base.Capped(MAX_BLOCK)) + 10 * x.length + WeightToFee(x.weight.Capped(MAX_BLOCK))
    ensures InclusionFee(base, x) >= 2 * MINIMUM_WEIGHT_FEE
  {
  }

  /** The inclusion fee as numbers: the compute of each weight counts up to two seconds, a byte costs 10 planck. */
  lemma InclusionFeeNumbers(base: Weight, x: Extrinsic)
    requires base.Fits() && Sendable(x)
    ensures InclusionFee(base, x) ==
            Max((Min(base.refTime, 2_000_000_000_000) + base.proofSize) / 1380, 1000)
            + 10 * x.length
            + Max((Min(x.weight.refTime, 2_000_000_000_000) + x.weight.proofSize) / 1380, 1000)
  {
    InclusionFeeExact(base, x);
    WeightToFeeExact(base.Capped(MAX_BLOCK));
    WeightToFeeExact(x.weight.Capped(MAX_BLOCK));
  }

  lemma InclusionFeeMonotone(base: Weight, x: Extrinsic, y: Extrinsic)
    requires base.Fits() && Sendable(x) && Sendable(y)
    requires x.weight.Below(y.weight) && x.length <= y.length
    ensures InclusionFee(base, x) <= InclusionFee(base, y)
  {
  }

  lemma CappedFeeSubadditive(a: Weight, b: Weight)
    requires a.Fits() && b.Fits()
    ensures WeightToFee(a.Plus(b).Capped(MAX_BLOCK)) <=
            WeightToFee(a.Capped(MAX_BLOCK)) + WeightToFee(b.Capped(MAX_BLOCK)) + 1
  {
    NeverSaturates(a.Capped(MAX_BLOCK), WEIGHT_FEE_DIVISOR);
    NeverSaturates(b.Capped(MAX_BLOCK), WEIGHT_FEE_DIVISOR);
    NeverSaturates(a.Plus(b).Capped(MAX_BLOCK), WEIGHT_FEE_DIVISOR);
  }

  /** A batch as a whole costs at least the base fee less per part saved, never more. */
  lemma {:induction false} WeightFeesSubadditive(xs: seq<Extrinsic>, base: Weight)
    requires xs != [] && base.Fits() && forall x :: x in xs ==> Sendable(x)
    ensures TotalWeight(xs).Fits()
    ensures WeightToFee(TotalWeight(xs).Capped(MAX_BLOCK)) + 10 * TotalLength(xs)
              + |xs| * WeightToFee(base.Capped(MAX_BLOCK))
              <= TotalFee(base, xs) + |xs| - 1
  {
    var b := WeightToFee(base.Capped(MAX_BLOCK));
    InclusionFeeExact(base, xs[0]);
    if |xs| == 1 {
      assert xs[1..] == [];
      assert TotalWeight(xs) == xs[0].weight;
    } else {
      WeightFeesSubadditive(xs[1..], base);
      CappedFeeSubadditive(xs[0].weight, TotalWeight(xs[1..]));
      assert |xs| * b == (|xs| - 1) * b + b;
    }
  }

  /**
    One extrinsic with the summed weight, and at most the summed length, of a sequence
    never costs more than the sequence: the base fees saved cover every rounding.
   */
  lemma BatchNeverCostsMore(base: Weight, xs: seq<Extrinsic>, batch: Extrinsic)
    requires xs != [] && base.Fits() && Sendable(batch) && forall x :: x in xs ==> Sendable(x)
    requires batch.weight == TotalWeight(xs) && batch.length <= TotalLength(xs)
    ensures InclusionFee(base, batch) + (|xs| - 1) * (MINIMUM_WEIGHT_FEE - 1) <= TotalFee(base, xs)
  {
    InclusionFeeExact(base, batch);
    WeightFeesSubadditive(xs, base);
    var b := WeightToFee(base.Capped(MAX_BLOCK));
    var n := |xs| - 1;
    assert |xs| * b == n * b + b;
    MulMonotone(n, MINIMUM_WEIGHT_FEE, b);
    assert n * MINIMUM_WEIGHT_FEE == n * (MINIMUM_WEIGHT_FEE - 1) + n;
  }
}
