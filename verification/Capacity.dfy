/** The capacity block of the benchmark script: transactions per block and the bottleneck. */
module Capacity {
  import opened Numbers

  datatype Bound = RefTime | ProofSize | Length

  /** What a block offers to normal extrinsics, and what one transaction takes of it. */
  datatype Limits = Limits(refTime: nat, proofSize: nat, length: nat)

  predicate Within(bound: Bound, max: Limits, per: Limits, count: nat) {
    match bound
    case RefTime => per.refTime * count <= max.refTime
    case ProofSize => per.proofSize * count <= max.proofSize
    case Length => per.length * count <= max.length
  }

  predicate Fits(max: Limits, per: Limits, count: nat) {
    Within(RefTime, max, per, count) && Within(ProofSize, max, per, count) && Within(Length, max, per, count)
  }

  /** The script looks at the limits in this order and keeps the first of equals. */
  function Rank(bound: Bound): nat {
    match bound
    case RefTime => 0
    case ProofSize => 1
    case Length => 2
  }

  lemma QuotientFits(total: nat, each: nat, count: nat)
    requires each > 0
    ensures each * count <= total <==> count <= total / each
  {
    if count <= total / each {
      MulMonotone(each, count, total / each);
    } else {
      MulMonotone(each, total / each + 1, count);
    }
  }

  /** How many fit one limit; nothing limits what takes nothing. */
  predicate UpTo(bound: Bound, max: Limits, per: Limits, count: nat)
    requires per.refTime > 0 && per.length > 0
  {
    match bound
    case RefTime => count <= max.refTime / per.refTime
    case ProofSize => per.proofSize > 0 ==> count <= max.proofSize / per.proofSize
    case Length => count <= max.length / per.length
  }

  lemma WithinIff(bound: Bound, max: Limits, per: Limits, count: nat)
    requires per.refTime > 0 && per.length > 0
    ensures Within(bound, max, per, count) <==> UpTo(bound, max, per, count)
  {
    match bound
    case RefTime => QuotientFits(max.refTime, per.refTime, count);
    case ProofSize =>
      if per.proofSize > 0 {
        QuotientFits(max.proofSize, per.proofSize, count);
      }
    case Length => QuotientFits(max.length, per.length, count);
  }

  /** `count` is the most that fit, and `bound` the first limit that one more would break. */
  ghost predicate IsCapacity(max: Limits, per: Limits, count: nat, bound: Bound) {
    && (forall k: nat :: Fits(max, per, k) <==> k <= count)
    && !Within(bound, max, per, count + 1)
    && (forall b :: Rank(b) < Rank(bound) ==> Within(b, max, per, count + 1))
  }

  lemma CapacityFromQuotients(max: Limits, per: Limits, count: nat, bound: Bound)
    requires per.refTime > 0 && per.length > 0
    requires UpTo(RefTime, max, per, count) && UpTo(ProofSize, max, per, count) && UpTo(Length, max, per, count)
    requires !UpTo(bound, max, per, count + 1)
    requires forall b :: Rank(b) < Rank(bound) ==> UpTo(b, max, per, count + 1)
    ensures IsCapacity(max, per, count, bound)
  {
    forall b, k: nat
      ensures Within(b, max, per, k) <==> UpTo(b, max, per, k)
    {
      WithinIff(b, max, per, k);
    }
    forall k: nat
      ensures Fits(max, per, k) <==> k <= count
    {
      if k > count {
        assert !UpTo(bound, max, per, k);
      }
    }
  }

  /**
    The capacity for a measured transfer. There is none without a measured weight, and a
    length of zero divides by zero. Otherwise `perBlock` is the greatest number of
    transactions that fit, and `bound` is the first limit that one more would break.
   */
  method PerBlock(max: Limits, base: Limits, txRefTime: nat, txProofSize: nat, txLength: nat)
    returns (capacity: Option<(nat, Bound)>)
    ensures capacity.None? <==> txRefTime == 0 || txLength == 0
    ensures capacity.Some? ==>
              var per := Limits(base.refTime + txRefTime, base.proofSize + txProofSize, txLength);
              var (perBlock, bound) := capacity.value;
              IsCapacity(max, per, perBlock, bound)
  {
    if txRefTime == 0 || txLength == 0 {
      return None;
    }
    var perTxRef := base.refTime + txRefTime;
    var perTxPov := base.proofSize + txProofSize;
    var byRef := max.refTime / perTxRef;
    var byPov := if perTxPov > 0 then Some(max.proofSize / perTxPov) else None;
    var byLen := max.length / txLength;

    var perBlock := byRef;
    var bound := RefTime;
    if byPov.Some? && byPov.value < perBlock {
      perBlock, bound := byPov.value, ProofSize;
    }
    if byLen < perBlock {
      perBlock, bound := byLen, Length;
    }
    CapacityFromQuotients(max, Limits(perTxRef, perTxPov, txLength), perBlock, bound);
    return Some((perBlock, bound));
  }

  /** The same limit by limit: what fits, and in which order the broken limit is reported. */
  lemma CapacityInNumbers(max: Limits, per: Limits, count: nat, bound: Bound)
    requires IsCapacity(max, per, count, bound)
    ensures per.refTime * count <= max.refTime && per.proofSize * count <= max.proofSize && per.length * count <= max.length
    ensures bound == RefTime <==> per.refTime * (count + 1) > max.refTime
    ensures bound == ProofSize <==>
              per.refTime * (count + 1) <= max.refTime && per.proofSize * (count + 1) > max.proofSize
    ensures bound == Length <==>
              && per.refTime * (count + 1) <= max.refTime && per.proofSize * (count + 1) <= max.proofSize
              && per.length * (count + 1) > max.length
  {
    assert Fits(max, per, count);
    assert Rank(RefTime) < Rank(ProofSize) < Rank(Length);
    assert bound != RefTime ==> Within(RefTime, max, per, count + 1);
    assert bound == Length ==> Within(ProofSize, max, per, count + 1);
  }
}
