/**
  What every dispatchable of the asset ledger keeps: supply is the sum of balances,
  deposits match approval entries, and entry counts match the map.
 */
module AssetInvariants {
  import opened Numbers
  import opened Sums
  import opened Currency
  import opened AssetLedger

  ghost function BalancesIn(a: Asset): map<AccountId, nat> {
    map who | who in a.holders :: a.holders[who].balance
  }

  ghost function HeldIn(a: Asset): nat {
    Sum(BalancesIn(a))
  }

  ghost predicate SupplyBacked(a: Asset) {
    a.supply == HeldIn(a) && a.supply <= U128_MAX
  }

  ghost predicate AllBacked(c: Chain) {
    forall id :: id in c.assets ==> SupplyBacked(c.assets[id])
  }

  ghost function EntriesBy(approvals: map<ApprovalKey, Approval>, owner: AccountId): set<ApprovalKey> {
    set k | k in approvals && k.owner == owner
  }

  ghost function EntriesOf(approvals: map<ApprovalKey, Approval>, id: AssetId): set<ApprovalKey> {
    set k | k in approvals && k.asset == id
  }

  ghost function Deposits(approvals: map<ApprovalKey, Approval>, owner: AccountId): nat {
    APPROVAL_DEPOSIT * |EntriesBy(approvals, owner)|
  }

  ghost function Count(approvals: map<ApprovalKey, Approval>, id: AssetId): nat {
    |EntriesOf(approvals, id)|
  }

  /** Every entry is a u128 of some asset and carries one deposit, which its owner has reserved. */
  ghost predicate DepositsReserved(c: Chain) {
    && (forall k :: k in c.approvals ==>
          k.asset in c.assets && c.approvals[k].deposit == APPROVAL_DEPOSIT && c.approvals[k].amount <= U128_MAX)
    && (forall w :: Deposits(c.approvals, w) <= ReservedOf(c.funds, w))
  }

  /** The u32 entry count of each asset is the number of its entries. Nothing else depends on it. */
  ghost predicate CountsAgree(c: Chain) {
    forall id :: id in c.assets ==> c.assets[id].approvals == Count(c.approvals, id) <= U32_MAX
  }

  /** What every dispatchable keeps, on every network. */
  ghost predicate Inv(c: Chain) {
    AllBacked(c) && DepositsReserved(c)
  }

  /** Deposits move one for one with entries; each account's total, and what it reserved otherwise, stay. */
  ghost predicate DepositsFollow(c: Chain, c': Chain) {
    DepositsMove(c.approvals, c.funds, c'.approvals, c'.funds)
  }

  ghost predicate DepositsMove(approvals: map<ApprovalKey, Approval>, funds: Funds,
                               approvals': map<ApprovalKey, Approval>, funds': Funds) {
    && (forall w :: ReservedOf(funds', w) + Deposits(approvals, w)
                    == ReservedOf(funds, w) + Deposits(approvals', w))
    && SameTotals(funds, funds')
  }

  ghost predicate SameTotals(funds: Funds, funds': Funds) {
    && (forall w :: TotalOf(funds', w) == TotalOf(funds, w))
    && funds'.Keys == funds.Keys
    && Held(funds') == Held(funds)
  }

  // ---- Balances of one asset ----

  /** A debit leaves either enough for the account to stay or nothing at all. */
  lemma PrepDebitFacts(a: Asset, who: AccountId, amount: nat, keepAlive: bool, bestEffort: bool)
    requires SupplyBacked(a) && amount > 0 && !(keepAlive && bestEffort)
    requires PrepDebit(a, who, amount, keepAlive, bestEffort).Some?
    ensures var debit := PrepDebit(a, who, amount, keepAlive, bestEffort).value;
            && a.status == Live
            && who in a.holders
            && debit <= a.holders[who].balance
            && (debit == a.holders[who].balance || a.holders[who].balance - debit >= a.minBalance)
            && (!bestEffort ==> amount <= debit)
            && (keepAlive ==> debit <= amount)
            && (debit > amount ==> debit == a.holders[who].balance && debit - amount < a.minBalance)
  {
    SumBoundsEntry(BalancesIn(a), who);
  }

  lemma CreditHolds(a: Asset, who: AccountId, amount: nat)
    requires CreditHolder(a, who, amount).Some? && BalanceIn(a, who) + amount <= U128_MAX
    ensures var a' := CreditHolder(a, who, amount).value;
            && HeldIn(a') == HeldIn(a) + amount
            && BalanceIn(a', who) == BalanceIn(a, who) + amount
            && (forall w :: w != who ==> (w in a'.holders <==> w in a.holders) && (w in a.holders ==> a'.holders[w] == a.holders[w]))
  {
    var a' := CreditHolder(a, who, amount).value;
    assert BalancesIn(a') == BalancesIn(a)[who := BalanceIn(a, who) + amount];
    SumUpdate(BalancesIn(a), who, BalanceIn(a, who) + amount);
  }

  lemma DebitHolds(a: Asset, who: AccountId, amount: nat)
    requires who in a.holders && amount <= a.holders[who].balance
    requires amount == a.holders[who].balance || a.holders[who].balance - amount >= a.minBalance
    ensures var a' := DebitHolder(a, who, amount);
            && HeldIn(a') == HeldIn(a) - amount
            && BalanceIn(a', who) == BalanceIn(a, who) - amount
            && (forall w :: w != who ==> (w in a'.holders <==> w in a.holders) && (w in a.holders ==> a'.holders[w] == a.holders[w]))
  {
    var a' := DebitHolder(a, who, amount);
    SumRemove(BalancesIn(a), who);
    if who in a'.holders {
      assert BalancesIn(a') == BalancesIn(a)[who := a.holders[who].balance - amount];
      SumUpdate(BalancesIn(a), who, a.holders[who].balance - amount);
    } else {
      assert BalancesIn(a') == BalancesIn(a) - {who};
    }
  }

  /**
    What a move does: at least the asked amount, exactly that amount unless the rest was
    too small to keep, goes from source to destination and from nowhere else.
   */
  lemma MoveEffect(a: Asset, source: AccountId, dest: AccountId, amount: nat, keepAlive: bool, creatable: bool)
    requires SupplyBacked(a) && amount > 0
    requires Move(a, source, dest, amount, keepAlive, creatable).Some?
    ensures var a' := Move(a, source, dest, amount, keepAlive, creatable).value;
            && SupplyBacked(a') && a'.supply == a.supply
            && a'.approvals == a.approvals && a'.status == a.status
            && (source == dest ==> a' == a)
            && (source != dest ==>
                  var debit := BalanceIn(a, source) - BalanceIn(a', source);
                  && BalanceIn(a', dest) - BalanceIn(a, dest) == debit
                  && amount <= debit && (keepAlive ==> debit == amount)
                  && (debit > amount ==> BalanceIn(a', source) == 0 && debit - amount < a.minBalance))
            && (forall w :: w != source && w != dest ==> BalanceIn(a', w) == BalanceIn(a, w))
  {
    PrepDebitFacts(a, source, amount, keepAlive, false);
    var debit := PrepDebit(a, source, amount, keepAlive, false).value;
    if source != dest {
      CreditHolds(a, dest, debit);
      DebitHolds(CreditHolder(a, dest, debit).value, source, debit);
    }
  }

  /**
    A move that may empty the source takes exactly what was asked if and only if what
    would stay behind is nothing or reaches the minimum balance. Otherwise the rest goes
    along, so a spender can move more than the allowance it spends.
   */
  lemma MovesExactlyIff(a: Asset, source: AccountId, dest: AccountId, amount: nat, creatable: bool)
    requires SupplyBacked(a) && amount > 0 && source != dest
    requires Move(a, source, dest, amount, false, creatable).Some?
    ensures amount <= BalanceIn(a, source)
    ensures BalanceIn(Move(a, source, dest, amount, false, creatable).value, dest) == BalanceIn(a, dest) + amount
            <==> BalanceIn(a, source) == amount || BalanceIn(a, source) - amount >= a.minBalance
  {
    MoveEffect(a, source, dest, amount, false, creatable);
    PrepDebitFacts(a, source, amount, false, false);
    var debit := PrepDebit(a, source, amount, false, false).value;
    CreditHolds(a, dest, debit);
    DebitHolds(CreditHolder(a, dest, debit).value, source, debit);
  }

  lemma BackedBalance(a: Asset, who: AccountId)
    requires SupplyBacked(a) && who in a.holders
    ensures a.holders[who].balance <= a.supply
  {
    SumBoundsEntry(BalancesIn(a), who);
  }

  // ---- Entries and deposits ----

  lemma EntriesAfterAdd(approvals: map<ApprovalKey, Approval>, key: ApprovalKey, v: Approval)
    ensures var after := approvals[key := v];
            var added := if key in approvals then 0 else 1;
            && (forall w :: Deposits(after, w) == Deposits(approvals, w) + if w == key.owner then APPROVAL_DEPOSIT * added else 0)
            && (forall id :: Count(after, id) == Count(approvals, id) + if id == key.asset then added else 0)
  {
    var after := approvals[key := v];
    forall w
      ensures EntriesBy(after, w) == if w == key.owner then EntriesBy(approvals, w) + {key} else EntriesBy(approvals, w)
    {
    }
    forall id
      ensures EntriesOf(after, id) == if id == key.asset then EntriesOf(approvals, id) + {key} else EntriesOf(approvals, id)
    {
    }
    if key in approvals {
      assert EntriesBy(approvals, key.owner) + {key} == EntriesBy(approvals, key.owner);
      assert EntriesOf(approvals, key.asset) + {key} == EntriesOf(approvals, key.asset);
    }
  }

  lemma EntriesAfterRemove(approvals: map<ApprovalKey, Approval>, key: ApprovalKey)
    requires key in approvals
    ensures Deposits(approvals, key.owner) >= APPROVAL_DEPOSIT && Count(approvals, key.asset) >= 1
    ensures var after := approvals - {key};
            && (forall w :: Deposits(after, w) == Deposits(approvals, w) - if w == key.owner then APPROVAL_DEPOSIT else 0)
            && (forall id :: Count(after, id) == Count(approvals, id) - if id == key.asset then 1 else 0)
  {
    var after := approvals - {key};
    assert after[key := approvals[key]] == approvals;
    EntriesAfterAdd(after, key, approvals[key]);
  }

  /** Each entry ties up one deposit, so the money supply bounds the number of entries. */
  lemma {:induction false} EntriesBounded(approvals: map<ApprovalKey, Approval>, funds: Funds)
    requires forall w :: Deposits(approvals, w) <= ReservedOf(funds, w)
    ensures APPROVAL_DEPOSIT * |approvals| <= Held(funds)
    decreases |approvals|
  {
    if approvals != map[] {
      var key :| key in approvals;
      var w := key.owner;
      var rest := approvals - {key};
      EntriesAfterRemove(approvals, key);
      assert Deposits(approvals, w) <= ReservedOf(funds, w);
      var account := funds[w].(reserved := funds[w].reserved - APPROVAL_DEPOSIT);
      HeldUpdate(funds, w, account);
      EntriesBounded(rest, funds[w := account]);
    }
  }

  /** A released entry gives back exactly one deposit. */
  lemma ReleaseEffect(c: Chain, key: ApprovalKey)
    requires DepositsReserved(c) && key in c.approvals
    ensures key.owner in c.funds && c.funds[key.owner].reserved >= APPROVAL_DEPOSIT
    ensures DepositsReserved(Released(c, key)) && DepositsFollow(c, Released(c, key))
  {
    EntriesAfterRemove(c.approvals, key);
    assert Deposits(c.approvals, key.owner) <= ReservedOf(c.funds, key.owner);
    ReservingKeepsTotals(c.funds, key.owner, APPROVAL_DEPOSIT);
  }

  lemma ReleaseCounts(c: Chain, key: ApprovalKey)
    requires CountsAgree(c) && key in c.approvals && key.asset in c.assets
    ensures CountsAgree(Released(c, key))
  {
    EntriesAfterRemove(c.approvals, key);
  }

  lemma ApproveEffect(c: Chain, key: ApprovalKey, amount: nat)
    requires DepositsReserved(c) && Approved(c, key, amount).Some?
    ensures var c' := Approved(c, key, amount).value;
            && DepositsReserved(c') && DepositsFollow(c, c')
            && (key in c.approvals ==> c'.funds == c.funds)
  {
    EntriesAfterAdd(c.approvals, key, Approved(c, key, amount).value.approvals[key]);
    ReservingKeepsTotals(c.funds, key.owner, APPROVAL_DEPOSIT);
  }

  /** The u32 count goes wrong exactly when a new entry is added to a full one. */
  lemma ApproveCountsIff(c: Chain, key: ApprovalKey, amount: nat)
    requires CountsAgree(c) && Approved(c, key, amount).Some?
    ensures CountsAgree(Approved(c, key, amount).value)
            <==> key in c.approvals || c.assets[key.asset].approvals < U32_MAX
  {
    var c' := Approved(c, key, amount).value;
    EntriesAfterAdd(c.approvals, key, c'.approvals[key]);
    assert key.asset in c'.assets;
  }

  lemma SubsetCardinality<T>(a: set<T>, b: set<T>)
    requires a <= b
    ensures |a| <= |b|
  {
    if a != b {
      assert b == a + (b - a);
    }
  }

  /** With fewer than 2^32 LUNES held in all, deposits run out before a count could saturate. */
  ghost predicate CountsFit(c: Chain) {
    Held(c.funds) < APPROVAL_DEPOSIT * (U32_MAX + 1)
  }

  lemma CountBounded(approvals: map<ApprovalKey, Approval>, id: AssetId)
    ensures Count(approvals, id) <= |approvals|
  {
    SubsetCardinality(EntriesOf(approvals, id), approvals.Keys);
    assert |approvals| == |approvals.Keys|;
  }

  lemma ApproveKeepsCounts(c: Chain, key: ApprovalKey, amount: nat)
    requires CountsAgree(c) && DepositsReserved(c) && CountsFit(c) && Approved(c, key, amount).Some?
    ensures CountsAgree(Approved(c, key, amount).value)
  {
    var c' := Approved(c, key, amount).value;
    ApproveEffect(c, key, amount);
    EntriesBounded(c'.approvals, c'.funds);
    EntriesAfterAdd(c.approvals, key, c'.approvals[key]);
    CountBounded(c'.approvals, key.asset);
    ApproveCountsIff(c, key, amount);
  }

  // ---- Every dispatchable keeps the invariant ----

  /** Replacing one asset by another with the same approval count. */
  lemma ReplaceAsset(c: Chain, id: AssetId, a: Asset)
    requires Inv(c) && id in c.assets && SupplyBacked(a) && a.approvals == c.assets[id].approvals
    ensures Inv(c.(assets := c.assets[id := a]))
    ensures CountsAgree(c) ==> CountsAgree(c.(assets := c.assets[id := a]))
  {
  }

  lemma CreateKeeps(c: Chain, id: AssetId, signer: AccountId, admin: AccountId, minBalance: nat)
    requires Inv(c) && Created(c, id, signer, admin, minBalance).Some?
    ensures var c' := Created(c, id, signer, admin, minBalance).value;
            && Inv(c') && (CountsAgree(c) ==> CountsAgree(c'))
            && SameTotals(c.funds, c'.funds)
            && c'.approvals == c.approvals
            && (forall i :: SupplyOf(c', i) == SupplyOf(c, i))
  {
    var c' := Created(c, id, signer, admin, minBalance).value;
    ReservingKeepsTotals(c.funds, signer, ASSET_DEPOSIT);
    assert BalancesIn(c'.assets[id]) == map[];
    assert EntriesOf(c.approvals, id) == {};
    forall w
      ensures ReservedOf(c.funds, w) <= ReservedOf(c'.funds, w)
    {
    }
  }

  lemma TransferKeeps(c: Chain, id: AssetId, source: AccountId, dest: AccountId, amount: nat, keepAlive: bool, creatable: bool)
    requires Inv(c) && Transferred(c, id, source, dest, amount, keepAlive, creatable).Some?
    ensures var c' := Transferred(c, id, source, dest, amount, keepAlive, creatable).value;
            && Inv(c') && (CountsAgree(c) ==> CountsAgree(c'))
            && c'.approvals == c.approvals && c'.funds == c.funds
            && c'.assets.Keys == c.assets.Keys
            && (forall i :: SupplyOf(c', i) == SupplyOf(c, i))
            && (id in c.assets ==> c'.assets[id].status == c.assets[id].status)
  {
    if amount > 0 {
      MoveEffect(c.assets[id], source, dest, amount, keepAlive, creatable);
      ReplaceAsset(c, id, Move(c.assets[id], source, dest, amount, keepAlive, creatable).value);
    }
  }

  lemma BurnAsset(a: Asset, who: AccountId, amount: nat)
    requires SupplyBacked(a) && amount > 0 && PrepDebit(a, who, amount, false, true).Some?
    ensures var debit := PrepDebit(a, who, amount, false, true).value;
            && who in a.holders && debit <= a.supply
            && var a' := DebitHolder(a.(supply := SatSub(a.supply, debit)), who, debit);
            && SupplyBacked(a') && a'.supply == a.supply - debit
            && a'.approvals == a.approvals
            && BalanceIn(a', who) == BalanceIn(a, who) - debit
            && (debit < amount ==> BalanceIn(a', who) == 0)
            && (forall w :: w != who ==> BalanceIn(a', w) == BalanceIn(a, w))
  {
    PrepDebitFacts(a, who, amount, false, true);
    SumBoundsEntry(BalancesIn(a), who);
    var debit := PrepDebit(a, who, amount, false, true).value;
    var lowered := a.(supply := a.supply - debit);
    assert BalancesIn(lowered) == BalancesIn(a);
    DebitHolds(lowered, who, debit);
  }

  /** Burning lowers the supply and the target's balance by the same amount; less than asked only to zero. */
  lemma BurnKeeps(c: Chain, id: AssetId, caller: AccountId, who: AccountId, amount: nat)
    requires Inv(c) && Burnt(c, id, caller, who, amount).Some?
    ensures var c' := Burnt(c, id, caller, who, amount).value;
            && Inv(c') && (CountsAgree(c) ==> CountsAgree(c'))
            && c'.approvals == c.approvals && c'.funds == c.funds
            && SupplyOf(c', id) <= SupplyOf(c, id)
            && SupplyOf(c, id) - SupplyOf(c', id) == BalanceOf(c, id, who) - BalanceOf(c', id, who)
            && (forall w :: w != who ==> BalanceOf(c', id, w) == BalanceOf(c, id, w))
            && (forall i :: i != id ==> SupplyOf(c', i) == SupplyOf(c, i))
            && (amount > 0 ==> caller == c.assets[id].admin)
            && (BalanceOf(c, id, who) - BalanceOf(c', id, who) < amount ==> BalanceOf(c', id, who) == 0)
  {
    if amount > 0 {
      BurnAsset(c.assets[id], who, amount);
      ReplaceAsset(c, id, Burnt(c, id, caller, who, amount).value.assets[id]);
    }
  }

  lemma MintAsset(a: Asset, who: AccountId, amount: nat, creatable: bool)
    requires SupplyBacked(a) && CanIncrease(a, who, amount, true, creatable)
    requires CreditHolder(a.(supply := SatAdd(a.supply, amount)), who, amount).Some?
    ensures var a' := CreditHolder(a.(supply := SatAdd(a.supply, amount)), who, amount).value;
            && SupplyBacked(a') && a'.supply == a.supply + amount
            && a'.approvals == a.approvals
            && BalanceIn(a', who) == BalanceIn(a, who) + amount
            && (forall w :: w != who ==> BalanceIn(a', w) == BalanceIn(a, w))
  {
    var raised := a.(supply := a.supply + amount);
    assert BalancesIn(raised) == BalancesIn(a);
    CreditHolds(raised, who, amount);
  }

  lemma MintKeeps(c: Chain, id: AssetId, caller: AccountId, who: AccountId, amount: nat, creatable: bool)
    requires Inv(c) && Minted(c, id, caller, who, amount, creatable).Some?
    ensures var c' := Minted(c, id, caller, who, amount, creatable).value;
            && Inv(c') && (CountsAgree(c) ==> CountsAgree(c'))
            && c'.funds == c.funds && c'.approvals == c.approvals
            && SupplyOf(c', id) == SupplyOf(c, id) + amount
            && BalanceOf(c', id, who) == BalanceOf(c, id, who) + amount
            && (forall w :: w != who ==> BalanceOf(c', id, w) == BalanceOf(c, id, w))
            && (forall i :: i != id ==> SupplyOf(c', i) == SupplyOf(c, i))
            && (amount > 0 ==> caller == c.assets[id].issuer)
  {
    if amount > 0 {
      MintAsset(c.assets[id], who, amount, creatable);
      ReplaceAsset(c, id, Minted(c, id, caller, who, amount, creatable).value.assets[id]);
    }
  }

  lemma CountChangeKeepsBacking(a: Asset, b: Asset)
    requires SupplyBacked(a) && b.holders == a.holders && b.supply == a.supply
    ensures SupplyBacked(b)
  {
  }

  lemma ApproveKeeps(c: Chain, key: ApprovalKey, amount: nat)
    requires Inv(c) && Approved(c, key, amount).Some?
    ensures Inv(Approved(c, key, amount).value)
  {
    ApproveEffect(c, key, amount);
    var c' := Approved(c, key, amount).value;
    CountChangeKeepsBacking(c.assets[key.asset], c'.assets[key.asset]);
  }

  lemma ReleaseKeeps(c: Chain, key: ApprovalKey)
    requires Inv(c) && key in c.approvals
    ensures Inv(Released(c, key)) && (CountsAgree(c) ==> CountsAgree(Released(c, key)))
  {
    ReleaseEffect(c, key);
    if CountsAgree(c) {
      ReleaseCounts(c, key);
    }
    CountChangeKeepsBacking(c.assets[key.asset], CountDown(c.assets[key.asset]));
  }

  lemma SpentKeeps(c: Chain, key: ApprovalKey, amount: nat)
    requires Inv(c) && key in c.approvals && amount <= c.approvals[key].amount
    ensures var c' := Spent(c, key, amount);
            && Inv(c') && (CountsAgree(c) ==> CountsAgree(c'))
            && DepositsFollow(c, c')
            && (forall i :: SupplyOf(c', i) == SupplyOf(c, i))
  {
    if c.approvals[key].amount == amount {
      ReleaseEffect(c, key);
      ReleaseKeeps(c, key);
    } else {
      EntriesAfterAdd(c.approvals, key, Spent(c, key, amount).approvals[key]);
    }
  }

  /** What stands behind one entry. */
  predicate EntryBacked(c: Chain, key: ApprovalKey) {
    && key in c.approvals && key.asset in c.assets
    && c.approvals[key].deposit == APPROVAL_DEPOSIT && c.approvals[key].amount <= U128_MAX
    && key.owner in c.funds && c.funds[key.owner].reserved >= APPROVAL_DEPOSIT
  }

  lemma EntriesAreBacked(c: Chain, key: ApprovalKey)
    requires DepositsReserved(c) && key in c.approvals
    ensures EntryBacked(c, key)
  {
    EntriesAfterRemove(c.approvals, key);
    assert Deposits(c.approvals, key.owner) <= ReservedOf(c.funds, key.owner);
  }

  /** A cancelled entry can be approved again at once: the deposit is there, and all is as if it had only been lowered. */
  lemma CancelThenApprove(c: Chain, key: ApprovalKey, left: nat)
    requires EntryBacked(c, key) && IsLive(c, key.asset) && 0 < left <= c.approvals[key].amount
    ensures Approved(Released(c, key), key, left) == Some(Reentered(c, key, left))
  {
    var a := c.assets[key.asset];
    ReleasedFunds(c.funds, key.owner);
    var approvals := c.approvals - {key};
    assert approvals[key := Approval(left, APPROVAL_DEPOSIT)] == c.approvals[key := c.approvals[key].(amount := left)];
    assert c.assets[key.asset := CountDown(a)][key.asset := CountUp(CountDown(a))] == c.assets[key.asset := CountUp(CountDown(a))];
  }

  /** Taken out and put back, an entry leaves the count alone exactly when the count knew of it. */
  lemma RecountedIff(a: Asset)
    ensures CountUp(CountDown(a)) == a <==> 1 <= a.approvals <= U32_MAX
  {
  }

  lemma ReenteredCounts(c: Chain, key: ApprovalKey, left: nat)
    requires CountsAgree(c) && key in c.approvals && key.asset in c.assets
    ensures CountsAgree(Reentered(c, key, left)) && Reentered(c, key, left).assets == c.assets
  {
    var c' := Reentered(c, key, left);
    EntriesAfterRemove(c.approvals, key);
    EntriesAfterAdd(c.approvals, key, c'.approvals[key]);
    RecountedIff(c.assets[key.asset]);
    assert c'.assets == c.assets;
  }

  lemma ReenteredKeeps(c: Chain, key: ApprovalKey, left: nat)
    requires Inv(c) && key in c.approvals && left <= c.approvals[key].amount
    ensures var c' := Reentered(c, key, left);
            && Inv(c') && DepositsFollow(c, c')
            && (forall i :: SupplyOf(c', i) == SupplyOf(c, i))
  {
    var c' := Reentered(c, key, left);
    EntriesAfterAdd(c.approvals, key, c'.approvals[key]);
    CountChangeKeepsBacking(c.assets[key.asset], c'.assets[key.asset]);
  }

  lemma ReleasedFunds(funds: Funds, owner: AccountId)
    requires owner in funds && funds[owner].reserved >= APPROVAL_DEPOSIT
    ensures Reserve(Unreserve(funds, owner, APPROVAL_DEPOSIT), owner, APPROVAL_DEPOSIT) == Some(funds)
  {
    var released := Unreserve(funds, owner, APPROVAL_DEPOSIT);
    var again := Reserve(released, owner, APPROVAL_DEPOSIT).value;
    assert again[owner] == funds[owner];
    assert again.Keys == funds.Keys;
    assert again == funds;
  }

  /** A successful spend lowers exactly this allowance, by what was asked; at zero the entry goes. */
  lemma SpendEffect(c: Chain, key: ApprovalKey, dest: AccountId, amount: nat, creatable: bool)
    requires TransferredApproved(c, key, dest, amount, creatable).Some?
    ensures var c' := TransferredApproved(c, key, dest, amount, creatable).value;
            && (key in c'.approvals <==> amount < AllowanceOf(c, key))
            && AllowanceOf(c', key) + amount == AllowanceOf(c, key)
            && (forall k :: k != key ==> (k in c'.approvals <==> k in c.approvals) && AllowanceOf(c', k) == AllowanceOf(c, k))
  {
  }

  lemma TransferApprovedKeeps(c: Chain, key: ApprovalKey, dest: AccountId, amount: nat, creatable: bool)
    requires Inv(c) && TransferredApproved(c, key, dest, amount, creatable).Some?
    ensures var c' := TransferredApproved(c, key, dest, amount, creatable).value;
            && Inv(c') && (CountsAgree(c) ==> CountsAgree(c'))
            && DepositsFollow(c, c')
            && (forall i :: SupplyOf(c', i) == SupplyOf(c, i))
  {
    TransferKeeps(c, key.asset, key.owner, dest, amount, false, creatable);
    SpentKeeps(Transferred(c, key.asset, key.owner, dest, amount, false, creatable).value, key, amount);
  }

  // ---- A spend beyond the allowance ----

  /** One asset with a minimum of 10, one holder of 15, and one approval of 10 that is paid for. */
  const SMALL_ASSET: Asset := Asset(0, 0, Live, 10, true, 15, 1, 1, 1, map[1 := Holder(15, false, Sufficient)])

  const SMALL_KEY: ApprovalKey := ApprovalKey(7, 1, 2)

  const SMALL_CHAIN: Chain := Chain(map[7 := SMALL_ASSET], (map[])[SMALL_KEY := Approval(10, APPROVAL_DEPOSIT)],
                                    map[1 := Account(EXISTENTIAL_DEPOSIT, APPROVAL_DEPOSIT)])

  lemma SmallChainSound()
    ensures Inv(SMALL_CHAIN) && CountsAgree(SMALL_CHAIN) && AllAlive(SMALL_CHAIN.funds)
  {
    assert BalancesIn(SMALL_ASSET) == (map[])[1 := 15];
    SumUpdate(map[], 1, 15);
    var none: map<ApprovalKey, Approval> := map[];
    assert forall w :: EntriesBy(none, w) == {};
    assert forall id :: EntriesOf(none, id) == {};
    EntriesAfterAdd(none, SMALL_KEY, Approval(10, APPROVAL_DEPOSIT));
  }

  lemma SmallSpend()
    ensures var spent := TransferredApproved(SMALL_CHAIN, SMALL_KEY, 3, 10, true);
            && spent.Some?
            && BalanceOf(spent.value, 7, 3) == 15 && BalanceOf(spent.value, 7, 1) == 0
            && SMALL_KEY !in spent.value.approvals
  {
    var moved := Move(SMALL_ASSET, 1, 3, 10, false, true);
    assert moved.Some? && BalanceIn(moved.value, 3) == 15 && BalanceIn(moved.value, 1) == 0;
  }

  /** In a ledger that keeps every invariant, spending an allowance of 10 from a balance of 15 moves all 15. */
  lemma RestFollowsBeyondAllowance()
    ensures Inv(SMALL_CHAIN) && CountsAgree(SMALL_CHAIN) && AllAlive(SMALL_CHAIN.funds)
    ensures AllowanceOf(SMALL_CHAIN, SMALL_KEY) == 10
    ensures var spent := TransferredApproved(SMALL_CHAIN, SMALL_KEY, 3, 10, true);
            && spent.Some? && Inv(spent.value)
            && BalanceOf(spent.value, 7, 3) == 15 && BalanceOf(spent.value, 7, 1) == 0
            && SMALL_KEY !in spent.value.approvals
  {
    SmallChainSound();
    SmallSpend();
    TransferApprovedKeeps(SMALL_CHAIN, SMALL_KEY, 3, 10, true);
  }
}
