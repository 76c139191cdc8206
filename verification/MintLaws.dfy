/**
  What the mint gate lets through, said in full: at the pool, before dispatch, and over the
  steps of a node, with the exempt asset by its number.
 */
module MintLaws {
  import opened Numbers
  import opened AssetLedger
  import opened AssetInvariants
  import opened AssetLaws
  import opened MintGate
  import Psp22

  /** Asset 2 may always be minted, any other asset while it has no supply. */
  predicate Open(c: Chain, tx: MintTx) {
    tx.id == 2 || tx.id !in c.assets || c.assets[tx.id].supply == 0
  }

  /** Pool and pre-dispatch decide alike and only by this. */
  lemma GateExact(c: Chain, tx: MintTx)
    ensures Validate(c, tx) == if Open(c, tx) then Ok(()) else Err("InvalidTransaction::Custom(1)")
    ensures PreDispatch(c, tx) == if Open(c, tx) then Ok(()) else Err("InvalidTransaction::Custom(1)")
  {
  }

  /** A mint in a block takes effect exactly when the gate is open for it and the pallet can do it. */
  predicate TakesEffect(c: Chain, tx: MintTx, creatable: bool) {
    tx.amount > 0 && Open(c, tx) && CanMint(c, tx.id, tx.signer, tx.beneficiary, tx.amount, creatable)
  }

  ghost predicate MintApplied(c: Chain, c': Chain, tx: MintTx, creatable: bool) {
    if TakesEffect(c, tx, creatable) then MintDone(c, c', tx.id, tx.beneficiary, tx.amount) else c' == c
  }

  lemma AppliedExact(c: Chain, tx: MintTx, creatable: bool)
    requires Inv(c)
    ensures MintApplied(c, Applied(c, tx, creatable), tx, creatable)
  {
    GateExact(c, tx);
    MintExact(c, tx.id, tx.signer, tx.beneficiary, tx.amount, creatable);
  }

  /** The pool after taking its mint at `index`: the others in their order. */
  ghost predicate TakenOut(pool: seq<MintTx>, pool': seq<MintTx>, index: nat) {
    && index < |pool| && |pool'| == |pool| - 1
    && forall k :: 0 <= k < |pool'| ==> pool'[k] == pool[if k < index then k else k + 1]
  }

  /** Every step of a node: what it does to the pool and to the ledger, and when. */
  lemma StepExact(n: Node, e: Event)
    requires Inv(n.chain)
    ensures var n' := Step(n, e);
            match e
            case Submit(tx) => n'.chain == n.chain && n'.pool == (if Open(n.chain, tx) then n.pool + [tx] else n.pool)
            case Include(i, creatable) =>
              if i >= |n.pool| then n' == n
              else TakenOut(n.pool, n'.pool, i) && MintApplied(n.chain, n'.chain, n.pool[i], creatable)
            case Import(tx, creatable) => n'.pool == n.pool && MintApplied(n.chain, n'.chain, tx, creatable)
            case Create(id, signer, admin, minBalance) =>
              n'.pool == n.pool
              && n'.chain == (var r := Created(n.chain, id, signer, admin, minBalance); if r.Some? then r.value else n.chain)
            case Contract(env) => n'.pool == n.pool && n'.chain == Psp22.Deliver(n.chain, env).chain
  {
    match e
    case Include(i, creatable) =>
      if i < |n.pool| {
        AppliedExact(n.chain, n.pool[i], creatable);
      }
    case Import(tx, creatable) => AppliedExact(n.chain, tx, creatable);
    case Submit(tx) => GateExact(n.chain, tx);
    case _ =>
  }

  /**
    The exemption at work: whatever supply asset 2 has, its issuer can go on minting it to
    a holder up to the u128 limits, while any other asset with supply stays as it is.
   */
  lemma OnlyAssetTwoGrows(n: Node, tx: MintTx, creatable: bool)
    requires Inv(n.chain) && tx.id in n.chain.assets && tx.amount > 0
    requires var a := n.chain.assets[tx.id];
             a.status == Live && tx.signer == a.issuer && tx.beneficiary in a.holders
             && a.supply > 0 && a.supply + tx.amount <= U128_MAX
    ensures var n' := Step(n, Import(tx, creatable));
            && (tx.id == 2 ==> SupplyOf(n'.chain, tx.id) == SupplyOf(n.chain, tx.id) + tx.amount
                               && BalanceOf(n'.chain, tx.id, tx.beneficiary) == BalanceOf(n.chain, tx.id, tx.beneficiary) + tx.amount)
            && (tx.id != 2 ==> n' == n)
  {
    StepExact(n, Import(tx, creatable));
    BackedBalance(n.chain.assets[tx.id], tx.beneficiary);
  }
}
