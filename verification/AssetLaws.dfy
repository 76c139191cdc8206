/**
  What each operation of the asset ledger does, said in full: exactly when it succeeds and
  exactly which record, balance, allowance and deposit it leaves. The conditions and amounts
  are written out from the state before the call.
 */
module AssetLaws {
  import opened Numbers
  import opened Currency
  import opened AssetLedger
  import opened AssetInvariants

  // ---- One asset ----

  /** `who` holds at least `amount` of a live asset and is not frozen. */
  predicate CanPay(a: Asset, who: AccountId, amount: nat) {
    a.status == Live && who in a.holders && !a.holders[who].frozen && amount <= a.holders[who].balance
  }

  /** There is room for `amount` in the entry of `who`, or it may open one. */
  predicate CanReceive(a: Asset, who: AccountId, amount: nat, creatable: bool) {
    if who in a.holders then a.holders[who].balance + amount <= U128_MAX
    else amount >= a.minBalance && (if a.isSufficient then a.sufficients < U32_MAX else creatable)
  }

  /** What leaves a balance when `amount` is asked: everything, if too little would stay behind. */
  function Taken(balance: nat, amount: nat, minBalance: nat): nat {
    if balance <= amount || balance - amount < minBalance then balance else amount
  }

  /** The entry of `who` grows by `amount`; a new one is unfrozen, and counted. */
  ghost predicate Grows(a: Asset, a': Asset, who: AccountId, amount: nat) {
    && who in a'.holders
    && a'.holders[who] == (if who in a.holders then a.holders[who].(balance := a.holders[who].balance + amount)
                           else Holder(amount, false, if a.isSufficient then Sufficient else Consumer))
    && a'.accounts == a.accounts + (if who in a.holders then 0 else 1)
    && a'.sufficients == a.sufficients + (if who !in a.holders && a.isSufficient then 1 else 0)
    && (forall w :: w != who ==> (w in a'.holders <==> w in a.holders) && (w in a.holders ==> a'.holders[w] == a.holders[w]))
    && a'.(holders := a.holders, accounts := a.accounts, sufficients := a.sufficients) == a
  }

  /** The entry of `who` shrinks by `amount`, and goes when it falls below the minimum unless a deposit holds it. */
  ghost predicate Shrinks(a: Asset, a': Asset, who: AccountId, amount: nat) {
    && who in a.holders && amount <= a.holders[who].balance
    && var left := a.holders[who].balance - amount;
    && var gone := left < a.minBalance && a.holders[who].reason != DepositHeld;
    && (who in a'.holders <==> !gone)
    && (!gone ==> a'.holders[who] == a.holders[who].(balance := left))
    && a'.accounts == SatSub(a.accounts, if gone then 1 else 0)
    && a'.sufficients == SatSub(a.sufficients, if gone && a.holders[who].reason == Sufficient then 1 else 0)
    && (forall w :: w != who ==> (w in a'.holders <==> w in a.holders) && (w in a.holders ==> a'.holders[w] == a.holders[w]))
    && a'.(holders := a.holders, accounts := a.accounts, sufficients := a.sufficients) == a
  }

  lemma CreditExact(a: Asset, who: AccountId, amount: nat)
    requires who in a.holders ==> a.holders[who].balance + amount <= U128_MAX
    ensures CreditHolder(a, who, amount).Some? <==> who in a.holders || a.accounts < U32_MAX
    ensures CreditHolder(a, who, amount).Some? ==> Grows(a, CreditHolder(a, who, amount).value, who, amount)
  {
  }

  lemma DebitExact(a: Asset, who: AccountId, amount: nat)
    requires who in a.holders && amount <= a.holders[who].balance
    ensures Shrinks(a, DebitHolder(a, who, amount), who, amount)
  {
  }

  lemma PrepDebitExact(a: Asset, who: AccountId, amount: nat, keepAlive: bool)
    requires SupplyBacked(a) && amount > 0
    ensures PrepDebit(a, who, amount, keepAlive, false).Some? <==>
              CanPay(a, who, amount) && (keepAlive ==> a.holders[who].balance - amount >= a.minBalance)
    ensures PrepDebit(a, who, amount, keepAlive, false).Some? ==>
              PrepDebit(a, who, amount, keepAlive, false).value == Taken(a.holders[who].balance, amount, a.minBalance)
  {
    if who in a.holders {
      BackedBalance(a, who);
    }
  }

  /** Exactly when a positive amount can be moved. */
  predicate CanMove(a: Asset, source: AccountId, dest: AccountId, amount: nat, keepAlive: bool, creatable: bool) {
    && CanPay(a, source, amount)
    && (keepAlive ==> a.holders[source].balance - amount >= a.minBalance)
    && CanReceive(a, dest, Taken(a.holders[source].balance, amount, a.minBalance), creatable)
    && (source != dest ==> dest in a.holders || a.accounts < U32_MAX)
  }

  /** The destination grows and the source shrinks by the same amount; to oneself nothing happens. */
  ghost predicate Moves(a: Asset, a': Asset, source: AccountId, dest: AccountId, moved: nat) {
    if source == dest then a' == a
    else exists b :: Grows(a, b, dest, moved) && Shrinks(b, a', source, moved)
  }

  lemma MoveExact(a: Asset, source: AccountId, dest: AccountId, amount: nat, keepAlive: bool, creatable: bool)
    requires SupplyBacked(a) && amount > 0
    ensures Move(a, source, dest, amount, keepAlive, creatable).Some? <==> CanMove(a, source, dest, amount, keepAlive, creatable)
    ensures CanMove(a, source, dest, amount, keepAlive, creatable) ==>
              Moves(a, Move(a, source, dest, amount, keepAlive, creatable).value, source, dest,
                    Taken(a.holders[source].balance, amount, a.minBalance))
  {
    PrepDebitExact(a, source, amount, keepAlive);
    var debit := PrepDebit(a, source, amount, keepAlive, false);
    if debit.Some? && CanReceive(a, dest, debit.value, creatable) && source != dest {
      CreditExact(a, dest, debit.value);
      var credited := CreditHolder(a, dest, debit.value);
      if credited.Some? {
        DebitExact(credited.value, source, debit.value);
      }
    }
  }

  /** What a move leaves in every balance. */
  lemma MovesBalances(a: Asset, a': Asset, source: AccountId, dest: AccountId, moved: nat, w: AccountId)
    requires Moves(a, a', source, dest, moved) && source in a.holders && moved <= a.holders[source].balance
    requires a.holders[source].balance == moved || a.holders[source].balance - moved >= a.minBalance
    ensures a'.supply == a.supply
    ensures BalanceIn(a', w) == BalanceIn(a, w)
                                + (if source != dest && w == dest then moved else 0)
                                - (if source != dest && w == source then moved else 0)
  {
  }

  // ---- The ledger ----

  /** Only the record of asset `id` differs. */
  ghost predicate OnlyAsset(c: Chain, c': Chain, id: AssetId) {
    && id in c.assets && c'.assets.Keys == c.assets.Keys
    && (forall i :: i in c.assets && i != id ==> c'.assets[i] == c.assets[i])
    && c'.approvals == c.approvals && c'.funds == c.funds
  }

  lemma TransferredExact(c: Chain, id: AssetId, source: AccountId, dest: AccountId, amount: nat,
                         keepAlive: bool, creatable: bool)
    requires Inv(c)
    ensures var r := Transferred(c, id, source, dest, amount, keepAlive, creatable);
            && (r.Some? <==> amount == 0 || (id in c.assets && CanMove(c.assets[id], source, dest, amount, keepAlive, creatable)))
            && (amount == 0 ==> r == Some(c))
            && (r.Some? && amount > 0 ==>
                  && OnlyAsset(c, r.value, id)
                  && Moves(c.assets[id], r.value.assets[id], source, dest,
                           Taken(c.assets[id].holders[source].balance, amount, c.assets[id].minBalance)))
  {
    if amount > 0 && id in c.assets {
      MoveExact(c.assets[id], source, dest, amount, keepAlive, creatable);
    }
  }

  /** A contract's transfer: the sender keeps the minimum. Sending nothing is always possible. */
  predicate CanTransfer(c: Chain, id: AssetId, from: AccountId, to: AccountId, value: nat, creatable: bool) {
    value == 0 || (id in c.assets && CanMove(c.assets[id], from, to, value, true, creatable))
  }

  /** Exactly `value` has moved, and nothing if it was zero or to oneself. */
  ghost predicate TransferDone(c: Chain, c': Chain, id: AssetId, from: AccountId, to: AccountId, value: nat) {
    if value == 0 || from == to then c' == c
    else
      && OnlyAsset(c, c', id)
      && Moves(c.assets[id], c'.assets[id], from, to, value)
      && c'.assets[id].supply == c.assets[id].supply
      && BalanceIn(c'.assets[id], from) == BalanceIn(c.assets[id], from) - value
      && BalanceIn(c'.assets[id], to) == BalanceIn(c.assets[id], to) + value
      && (forall w :: w != from && w != to ==> BalanceIn(c'.assets[id], w) == BalanceIn(c.assets[id], w))
  }

  lemma MovedBalances(a: Asset, a': Asset, from: AccountId, to: AccountId, value: nat)
    requires from != to && Moves(a, a', from, to, value)
    requires from in a.holders && value <= a.holders[from].balance
    requires a.holders[from].balance == value || a.holders[from].balance - value >= a.minBalance
    ensures a'.supply == a.supply
    ensures BalanceIn(a', from) == BalanceIn(a, from) - value && BalanceIn(a', to) == BalanceIn(a, to) + value
    ensures forall w :: w != from && w != to ==> BalanceIn(a', w) == BalanceIn(a, w)
  {
    MovesBalances(a, a', from, to, value, from);
    MovesBalances(a, a', from, to, value, to);
    forall w | w != from && w != to
      ensures BalanceIn(a', w) == BalanceIn(a, w)
    {
      MovesBalances(a, a', from, to, value, w);
    }
  }

  lemma TransferExact(c: Chain, id: AssetId, from: AccountId, to: AccountId, value: nat, creatable: bool)
    requires Inv(c)
    ensures var r := Transferred(c, id, from, to, value, true, creatable);
            && (r.Some? <==> CanTransfer(c, id, from, to, value, creatable))
            && (r.Some? ==> TransferDone(c, r.value, id, from, to, value))
  {
    TransferredExact(c, id, from, to, value, true, creatable);
    var r := Transferred(c, id, from, to, value, true, creatable);
    if r.Some? && value > 0 {
      var a, a' := c.assets[id], r.value.assets[id];
      assert Taken(a.holders[from].balance, value, a.minBalance) == value;
      if from == to {
        assert r.value.assets == c.assets;
      } else {
        MovedBalances(a, a', from, to, value);
      }
    }
  }

  /** Positive burns are for the admin of a live asset, from an entry that is there and not frozen. */
  predicate CanBurn(c: Chain, id: AssetId, caller: AccountId, who: AccountId, amount: nat) {
    && id in c.assets && c.assets[id].status != Destroying
    && (amount > 0 ==>
          && c.assets[id].status == Live && caller == c.assets[id].admin
          && who in c.assets[id].holders && !c.assets[id].holders[who].frozen)
  }

  /** Supply and balance fall by what was asked, or by everything if too little would stay. */
  ghost predicate BurnDone(c: Chain, c': Chain, id: AssetId, who: AccountId, amount: nat)
    requires id in c.assets && (amount > 0 ==> who in c.assets[id].holders)
  {
    if amount == 0 then c' == c
    else
      var b, min := c.assets[id].holders[who].balance, c.assets[id].minBalance;
      var taken := if b <= amount || b - amount < min then b else amount;
      && OnlyAsset(c, c', id)
      && c'.assets[id].supply + taken == c.assets[id].supply
      && Shrinks(c.assets[id], c'.assets[id].(supply := c.assets[id].supply), who, taken)
      && BalanceIn(c'.assets[id], who) == b - taken
      && (forall w :: w != who ==> BalanceIn(c'.assets[id], w) == BalanceIn(c.assets[id], w))
  }

  lemma BurnDebitExact(a: Asset, who: AccountId, amount: nat)
    requires SupplyBacked(a) && amount > 0
    ensures PrepDebit(a, who, amount, false, true).Some? <==> a.status == Live && who in a.holders && !a.holders[who].frozen
    ensures PrepDebit(a, who, amount, false, true).Some? ==>
              && PrepDebit(a, who, amount, false, true).value == Taken(a.holders[who].balance, amount, a.minBalance)
              && a.holders[who].balance <= a.supply
  {
    if who in a.holders {
      BackedBalance(a, who);
    }
  }

  lemma BurnAssetExact(a: Asset, who: AccountId, taken: nat)
    requires who in a.holders && taken <= a.holders[who].balance && taken <= a.supply
    requires a.holders[who].balance == taken || a.holders[who].balance - taken >= a.minBalance
    ensures var a' := DebitHolder(a.(supply := SatSub(a.supply, taken)), who, taken);
            && a'.supply + taken == a.supply
            && Shrinks(a, a'.(supply := a.supply), who, taken)
            && BalanceIn(a', who) == a.holders[who].balance - taken
            && (forall w :: w != who ==> BalanceIn(a', w) == BalanceIn(a, w))
  {
  }

  lemma BurnExact(c: Chain, id: AssetId, caller: AccountId, who: AccountId, amount: nat)
    requires Inv(c)
    ensures var r := Burnt(c, id, caller, who, amount);
            && (r.Some? <==> CanBurn(c, id, caller, who, amount))
            && (r.Some? ==> BurnDone(c, r.value, id, who, amount))
  {
    if id in c.assets && amount > 0 {
      var a := c.assets[id];
      BurnDebitExact(a, who, amount);
      if PrepDebit(a, who, amount, false, true).Some? {
        BurnAssetExact(a, who, Taken(a.holders[who].balance, amount, a.minBalance));
      }
    }
  }

  /** A positive mint succeeds exactly for the issuer of a live asset with room in supply and entry. */
  predicate CanMint(c: Chain, id: AssetId, caller: AccountId, who: AccountId, amount: nat, creatable: bool) {
    && id in c.assets && c.assets[id].status == Live && caller == c.assets[id].issuer
    && c.assets[id].supply + amount <= U128_MAX
    && CanReceive(c.assets[id], who, amount, creatable)
    && (who in c.assets[id].holders || c.assets[id].accounts < U32_MAX)
  }

  /** Supply and one balance have risen by `amount`. */
  ghost predicate MintDone(c: Chain, c': Chain, id: AssetId, who: AccountId, amount: nat) {
    && OnlyAsset(c, c', id)
    && c'.assets[id].supply == c.assets[id].supply + amount
    && Grows(c.assets[id], c'.assets[id].(supply := c.assets[id].supply), who, amount)
    && BalanceIn(c'.assets[id], who) == BalanceIn(c.assets[id], who) + amount
    && (forall w :: w != who ==> BalanceIn(c'.assets[id], w) == BalanceIn(c.assets[id], w))
  }

  lemma MintAssetExact(a: Asset, who: AccountId, amount: nat)
    requires who in a.holders ==> a.holders[who].balance + amount <= U128_MAX
    requires a.supply + amount <= U128_MAX
    ensures var r := CreditHolder(a.(supply := SatAdd(a.supply, amount)), who, amount);
            && (r.Some? <==> who in a.holders || a.accounts < U32_MAX)
            && (r.Some? ==>
                  && r.value.supply == a.supply + amount
                  && Grows(a, r.value.(supply := a.supply), who, amount)
                  && BalanceIn(r.value, who) == BalanceIn(a, who) + amount
                  && (forall w :: w != who ==> BalanceIn(r.value, w) == BalanceIn(a, w)))
  {
  }

  lemma MintExact(c: Chain, id: AssetId, caller: AccountId, who: AccountId, amount: nat, creatable: bool)
    requires Inv(c)
    ensures var r := Minted(c, id, caller, who, amount, creatable);
            && (r.Some? <==> amount == 0 || CanMint(c, id, caller, who, amount, creatable))
            && (amount == 0 ==> r == Some(c))
            && (r.Some? && amount > 0 ==> MintDone(c, r.value, id, who, amount))
  {
    if id in c.assets && amount > 0 && CanIncrease(c.assets[id], who, amount, true, creatable) {
      MintAssetExact(c.assets[id], who, amount);
    }
  }

  /** A new asset reserves 100 LUNES, has no supply, and obeys its admin. */
  lemma CreatedExact(c: Chain, id: AssetId, signer: AccountId, admin: AccountId, minBalance: nat)
    ensures var r := Created(c, id, signer, admin, minBalance);
            && (r.Some? <==> id !in c.assets && minBalance > 0 && signer in c.funds && c.funds[signer].free >= 10_000_000_000)
            && (r.Some? ==>
                  && r.value.assets == c.assets[id := r.value.assets[id]]
                  && var a := r.value.assets[id];
                  && a.issuer == admin && a.admin == admin && a.status == Live && a.minBalance == minBalance
                  && !a.isSufficient && a.supply == 0 && a.holders == map[]
                  && a.accounts == 0 && a.sufficients == 0 && a.approvals == 0
                  && r.value.approvals == c.approvals
                  && r.value.funds == c.funds[signer := Account(c.funds[signer].free - 10_000_000_000,
                                                                c.funds[signer].reserved + 10_000_000_000)])
  {
  }

  // ---- Allowances and deposits ----

  /** Only the entry of `key`, its owner's account and the count of its asset differ. */
  ghost predicate OnlyEntry(c: Chain, c': Chain, key: ApprovalKey) {
    && key.asset in c.assets && c'.assets.Keys == c.assets.Keys
    && (forall i :: i in c.assets && i != key.asset ==> c'.assets[i] == c.assets[i])
    && c'.assets[key.asset].(approvals := c.assets[key.asset].approvals) == c.assets[key.asset]
    && (forall k :: k != key ==> (k in c'.approvals <==> k in c.approvals) && (k in c.approvals ==> c'.approvals[k] == c.approvals[k]))
    && (forall w :: w != key.owner ==> (w in c'.funds <==> w in c.funds) && (w in c.funds ==> c'.funds[w] == c.funds[w]))
  }

  /** The deposit of 1 LUNES moves from free to reserved. */
  ghost predicate DepositTaken(c: Chain, c': Chain, owner: AccountId) {
    && owner in c.funds && owner in c'.funds && c.funds[owner].free >= 100_000_000
    && c'.funds[owner] == Account(c.funds[owner].free - 100_000_000, c.funds[owner].reserved + 100_000_000)
  }

  /** The entry of `key` holds `amount` against its deposit. */
  predicate EntryHolds(c: Chain, key: ApprovalKey, amount: nat) {
    key in c.approvals && c.approvals[key] == Approval(amount, 100_000_000)
  }

  /** Approving needs a live asset and, for a new entry only, 1 LUNES free. */
  predicate CanApprove(c: Chain, key: ApprovalKey) {
    && key.asset in c.assets && c.assets[key.asset].status == Live
    && (key in c.approvals || (key.owner in c.funds && c.funds[key.owner].free >= 100_000_000))
  }

  /** The allowance is what it was plus `amount`, up to the u128 limit; a new entry has taken its deposit. */
  ghost predicate ApproveDone(c: Chain, c': Chain, key: ApprovalKey, amount: nat) {
    && OnlyEntry(c, c', key)
    && (if key in c.approvals then
          EntryHolds(c', key, Min(c.approvals[key].amount + amount, U128_MAX)) && c'.funds == c.funds && c'.assets == c.assets
        else
          && EntryHolds(c', key, Min(amount, U128_MAX))
          && DepositTaken(c, c', key.owner)
          && c'.assets[key.asset].approvals == Min(c.assets[key.asset].approvals + 1, U32_MAX))
  }

  lemma ApproveExact(c: Chain, key: ApprovalKey, amount: nat)
    requires Inv(c)
    ensures var r := Approved(c, key, amount);
            && (r.Some? <==> CanApprove(c, key))
            && (r.Some? ==> ApproveDone(c, r.value, key, amount))
  {
    if key in c.approvals {
      EntriesAreBacked(c, key);
      if key.asset in c.assets {
        assert c.assets[key.asset := c.assets[key.asset]] == c.assets;
      }
    }
  }

  /** The entry is gone, its deposit is free again, and the count is one less. */
  ghost predicate EntryGone(c: Chain, c': Chain, key: ApprovalKey) {
    && key !in c'.approvals
    && DepositTaken(c', c, key.owner)
    && key.asset in c.assets && key.asset in c'.assets
    && c'.assets[key.asset].approvals == SatSub(c.assets[key.asset].approvals, 1)
  }

  lemma ReleasedExact(c: Chain, key: ApprovalKey)
    requires Inv(c) && key in c.approvals
    ensures OnlyEntry(c, Released(c, key), key) && EntryGone(c, Released(c, key), key)
  {
    EntriesAreBacked(c, key);
  }

  /** Decreasing by nothing is always possible; otherwise it takes a live asset and an entry, whatever the value. */
  predicate CanDecrease(c: Chain, key: ApprovalKey, value: nat) {
    value == 0 || (key.asset in c.assets && c.assets[key.asset].status == Live && key in c.approvals)
  }

  /** Taken down and up again, the count is what it was, except that zero comes out as one. */
  ghost predicate Recounted(c: Chain, c': Chain, key: ApprovalKey) {
    && key.asset in c.assets && key.asset in c'.assets
    && c'.assets[key.asset].approvals == Min(Max(1, c.assets[key.asset].approvals), U32_MAX)
  }

  /** The allowance has fallen by `value`; at zero the entry is gone and its deposit free again. */
  ghost predicate DecreaseDone(c: Chain, c': Chain, key: ApprovalKey, value: nat)
    requires value > 0 ==> key in c.approvals
  {
    if value == 0 then c' == c
    else
      && OnlyEntry(c, c', key)
      && (if c.approvals[key].amount <= value then EntryGone(c, c', key)
          else EntryHolds(c', key, c.approvals[key].amount - value) && c'.funds == c.funds && Recounted(c, c', key))
  }

  lemma ReenteredExact(c: Chain, key: ApprovalKey, left: nat)
    requires Inv(c) && key in c.approvals && 0 < left <= c.approvals[key].amount
    ensures OnlyEntry(c, Reentered(c, key, left), key) && EntryHolds(Reentered(c, key, left), key, left)
    ensures Recounted(c, Reentered(c, key, left), key)
  {
    EntriesAreBacked(c, key);
  }

  /** The allowance after a spend. */
  ghost predicate Spends(c: Chain, c': Chain, key: ApprovalKey, amount: nat) {
    && key in c.approvals && amount <= c.approvals[key].amount
    && OnlyEntry(c, c', key)
    && (if amount == c.approvals[key].amount then EntryGone(c, c', key)
        else EntryHolds(c', key, c.approvals[key].amount - amount) && c'.funds == c.funds && c'.assets == c.assets)
  }

  lemma SpentExact(c: Chain, key: ApprovalKey, amount: nat)
    requires Inv(c) && key in c.approvals && amount <= c.approvals[key].amount
    ensures Spends(c, Spent(c, key, amount), key, amount)
  {
    EntriesAreBacked(c, key);
    if amount == c.approvals[key].amount {
      ReleasedExact(c, key);
    }
  }

  /** Exactly when a spender may move `amount` for the owner. */
  predicate CanSpend(c: Chain, key: ApprovalKey, dest: AccountId, amount: nat, creatable: bool) {
    && key.asset in c.assets && c.assets[key.asset].status == Live
    && key in c.approvals && amount <= c.approvals[key].amount
    && (amount > 0 ==> CanMove(c.assets[key.asset], key.owner, dest, amount, false, creatable))
  }

  /** What a spend leaves: a move for the owner, after which the allowance falls by what was asked. */
  ghost predicate SpendsFor(c: Chain, c': Chain, key: ApprovalKey, dest: AccountId, amount: nat) {
    if amount == 0 then Spends(c, c', key, 0)
    else key.asset in c.assets && key.owner in c.assets[key.asset].holders
         && exists m ::
              && OnlyAsset(c, m, key.asset)
              && Moves(c.assets[key.asset], m.assets[key.asset], key.owner, dest,
                       Taken(c.assets[key.asset].holders[key.owner].balance, amount, c.assets[key.asset].minBalance))
              && Spends(m, c', key, amount)
  }

  lemma SpentAfterMove(c: Chain, key: ApprovalKey, dest: AccountId, amount: nat, creatable: bool)
    requires Inv(c) && CanSpend(c, key, dest, amount, creatable)
    requires Transferred(c, key.asset, key.owner, dest, amount, false, creatable).Some?
    ensures SpendsFor(c, Spent(Transferred(c, key.asset, key.owner, dest, amount, false, creatable).value, key, amount), key, dest, amount)
  {
    TransferredExact(c, key.asset, key.owner, dest, amount, false, creatable);
    TransferKeeps(c, key.asset, key.owner, dest, amount, false, creatable);
    SpentExact(Transferred(c, key.asset, key.owner, dest, amount, false, creatable).value, key, amount);
  }

  lemma TransferredApprovedExact(c: Chain, key: ApprovalKey, dest: AccountId, amount: nat, creatable: bool)
    requires Inv(c)
    ensures var r := TransferredApproved(c, key, dest, amount, creatable);
            && (r.Some? <==> CanSpend(c, key, dest, amount, creatable))
            && (r.Some? ==> SpendsFor(c, r.value, key, dest, amount))
  {
    TransferredExact(c, key.asset, key.owner, dest, amount, false, creatable);
    if CanSpend(c, key, dest, amount, creatable) {
      SpentAfterMove(c, key, dest, amount, creatable);
    }
  }

  /** What a spend leaves in every balance and allowance of the asset. */
  lemma SpendsBalances(c: Chain, c': Chain, key: ApprovalKey, dest: AccountId, amount: nat, w: AccountId)
    requires SpendsFor(c, c', key, dest, amount) && amount > 0
    requires amount <= c.assets[key.asset].holders[key.owner].balance
    ensures var a := c.assets[key.asset];
            var moved := Taken(a.holders[key.owner].balance, amount, a.minBalance);
            && key.asset in c'.assets && c'.assets[key.asset].supply == a.supply
            && BalanceIn(c'.assets[key.asset], w) == BalanceIn(a, w)
                                                     + (if key.owner != dest && w == dest then moved else 0)
                                                     - (if key.owner != dest && w == key.owner then moved else 0)
  {
    var a := c.assets[key.asset];
    var moved := Taken(a.holders[key.owner].balance, amount, a.minBalance);
    var m :| OnlyAsset(c, m, key.asset) && Moves(a, m.assets[key.asset], key.owner, dest, moved) && Spends(m, c', key, amount);
    MovesBalances(a, m.assets[key.asset], key.owner, dest, moved, w);
  }
}
