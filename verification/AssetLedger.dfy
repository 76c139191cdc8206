/**
  The slice of the assets pallet that the token extension and the mint gate drive. The
  pallet is a library outside this repository. Its rules are stated here as transitions
  of a value, one per dispatchable the repository calls; `None` stands for any of the
  pallet's errors, all of which the extension replaces by its own message. The class
  applies them to stored state, moving deposits through the currency.
 */
module AssetLedger {
  import opened Numbers
  import opened Currency

  type AssetId = nat

  /** runtime/src/lib.rs: what an owner reserves for each approval entry. */
  const APPROVAL_DEPOSIT: nat := 1 * UNIT

  /** runtime/src/lib.rs: what creating an asset reserves. */
  const ASSET_DEPOSIT: nat := 100 * UNIT

  datatype AssetStatus = Live | Frozen | Destroying

  /** Why a holder's entry exists; one held by a deposit survives at zero balance. */
  datatype Reason = Consumer | Sufficient | DepositHeld | DepositRefunded

  datatype Holder = Holder(balance: nat, frozen: bool, reason: Reason)

  datatype Asset = Asset(
    issuer: AccountId, admin: AccountId, status: AssetStatus,
    minBalance: nat, isSufficient: bool, supply: nat,
    accounts: nat, sufficients: nat, approvals: nat,
    holders: map<AccountId, Holder>)

  datatype ApprovalKey = ApprovalKey(asset: AssetId, owner: AccountId, spender: AccountId)

  datatype Approval = Approval(amount: nat, deposit: nat)

  datatype Chain = Chain(assets: map<AssetId, Asset>, approvals: map<ApprovalKey, Approval>, funds: Funds)

  function SupplyOf(c: Chain, id: AssetId): nat {
    if id in c.assets then c.assets[id].supply else 0
  }

  function BalanceIn(a: Asset, who: AccountId): nat {
    if who in a.holders then a.holders[who].balance else 0
  }

  function BalanceOf(c: Chain, id: AssetId, who: AccountId): nat {
    if id in c.assets then BalanceIn(c.assets[id], who) else 0
  }

  function AllowanceOf(c: Chain, key: ApprovalKey): nat {
    if key in c.approvals then c.approvals[key].amount else 0
  }

  predicate IsLive(c: Chain, id: AssetId) {
    id in c.assets && c.assets[id].status == Live
  }

  // ---- Debits and credits of one asset ----

  /** What may leave an account: nothing from a frozen one, and not the minimum if it must stay. */
  function Reducible(a: Asset, who: AccountId, keepAlive: bool): Option<nat> {
    if a.status != Live || who !in a.holders || a.holders[who].frozen then None
    else
      var balance := a.holders[who].balance;
      Some(Min(if keepAlive then SatSub(balance, a.minBalance) else balance, a.supply))
  }

  /**
    The amount a debit will take. What would remain below the minimum balance is taken
    along, so the account empties.
   */
  function PrepDebit(a: Asset, who: AccountId, amount: nat, keepAlive: bool, bestEffort: bool): Option<nat> {
    var reducible := Reducible(a, who, keepAlive);
    if reducible.None? then None
    else
      var actual := Min(reducible.value, amount);
      if !bestEffort && actual < amount then None
      else if actual == 0 then Some(0)
      else
        var rest := a.holders[who].balance - actual;
        if rest >= a.minBalance then Some(actual)
        else if keepAlive then None
        else Some(SatAdd(actual, rest))
  }

  /** `creatable`: whether the system lets `who` take one more consumer reference. */
  predicate CanIncrease(a: Asset, who: AccountId, amount: nat, increaseSupply: bool, creatable: bool) {
    && (increaseSupply ==> a.supply + amount <= U128_MAX)
    && (if who in a.holders then a.holders[who].balance + amount <= U128_MAX
        else amount >= a.minBalance && (if a.isSufficient then a.sufficients < U32_MAX else creatable))
  }

  function CreditHolder(a: Asset, who: AccountId, amount: nat): Option<Asset> {
    if who in a.holders then
      Some(a.(holders := a.holders[who := a.holders[who].(balance := SatAdd(a.holders[who].balance, amount))]))
    else if a.accounts >= U32_MAX then None
    else
      Some(a.(accounts := a.accounts + 1,
              sufficients := if a.isSufficient then a.sufficients + 1 else a.sufficients,
              holders := a.holders[who := Holder(amount, false, if a.isSufficient then Sufficient else Consumer)]))
  }

  /** A holder left below the minimum is removed, unless a deposit holds its entry. */
  function DebitHolder(a: Asset, who: AccountId, amount: nat): Asset
    requires who in a.holders
  {
    var h := a.holders[who].(balance := SatSub(a.holders[who].balance, amount));
    if h.balance < a.minBalance && h.reason != DepositHeld then
      a.(accounts := SatSub(a.accounts, 1),
         sufficients := if h.reason == Sufficient then SatSub(a.sufficients, 1) else a.sufficients,
         holders := a.holders - {who})
    else
      a.(holders := a.holders[who := h])
  }

  /** A transfer to oneself passes the same checks and then does nothing. */
  function Move(a: Asset, source: AccountId, dest: AccountId, amount: nat, keepAlive: bool, creatable: bool): Option<Asset> {
    var debit := PrepDebit(a, source, amount, keepAlive, false);
    if debit.None? || !CanIncrease(a, dest, debit.value, false, creatable) then None
    else if source == dest then Some(a)
    else
      var credited := CreditHolder(a, dest, debit.value);
      if credited.None? then None else Some(DebitHolder(credited.value, source, debit.value))
  }

  // ---- Dispatchables ----

  /** A new asset with no supply, for which the signer reserves the asset deposit. */
  function Created(c: Chain, id: AssetId, signer: AccountId, admin: AccountId, minBalance: nat): Option<Chain> {
    if id in c.assets || minBalance == 0 then None
    else
      var funds := Reserve(c.funds, signer, ASSET_DEPOSIT);
      if funds.None? then None
      else Some(c.(funds := funds.value,
                   assets := c.assets[id := Asset(admin, admin, Live, minBalance, false, 0, 0, 0, 0, map[])]))
  }

  /** Moving nothing succeeds whatever the asset. */
  function Transferred(c: Chain, id: AssetId, source: AccountId, dest: AccountId, amount: nat,
                       keepAlive: bool, creatable: bool): Option<Chain> {
    if amount == 0 then Some(c)
    else if id !in c.assets then None
    else
      var moved := Move(c.assets[id], source, dest, amount, keepAlive, creatable);
      if moved.None? then None else Some(c.(assets := c.assets[id := moved.value]))
  }

  /** Best effort: burns up to `amount` of what `who` has; only the admin may. */
  function Burnt(c: Chain, id: AssetId, caller: AccountId, who: AccountId, amount: nat): Option<Chain> {
    if id !in c.assets || c.assets[id].status == Destroying then None
    else if amount == 0 then Some(c)
    else
      var a := c.assets[id];
      var debit := PrepDebit(a, who, amount, false, true);
      if debit.None? || caller != a.admin then None
      else Some(c.(assets := c.assets[id := DebitHolder(a.(supply := SatSub(a.supply, debit.value)), who, debit.value)]))
  }

  function Minted(c: Chain, id: AssetId, caller: AccountId, who: AccountId, amount: nat, creatable: bool): Option<Chain> {
    if amount == 0 then Some(c)
    else if id !in c.assets then None
    else
      var a := c.assets[id];
      if !CanIncrease(a, who, amount, true, creatable) || a.status != Live || caller != a.issuer then None
      else
        var credited := CreditHolder(a.(supply := SatAdd(a.supply, amount)), who, amount);
        if credited.None? then None else Some(c.(assets := c.assets[id := credited.value]))
  }

  function CountUp(a: Asset): Asset {
    a.(approvals := Min(a.approvals + 1, U32_MAX))
  }

  function CountDown(a: Asset): Asset {
    a.(approvals := SatSub(a.approvals, 1))
  }

  /** Adds to what was approved before; a new entry reserves the deposit. */
  function Approved(c: Chain, key: ApprovalKey, amount: nat): Option<Chain> {
    if !IsLive(c, key.asset) then None
    else
      var a := c.assets[key.asset];
      var before := if key in c.approvals then c.approvals[key] else Approval(0, 0);
      var funds := Reserve(c.funds, key.owner, SatSub(APPROVAL_DEPOSIT, before.deposit));
      if funds.None? then None
      else Some(Chain(c.assets[key.asset := if key in c.approvals then a else CountUp(a)],
                      c.approvals[key := Approval(SatAdd(before.amount, amount), Max(before.deposit, APPROVAL_DEPOSIT))],
                      funds.value))
  }

  /** An entry goes, its deposit returns to the owner. */
  function Released(c: Chain, key: ApprovalKey): Chain
    requires key in c.approvals && key.asset in c.assets
  {
    Chain(c.assets[key.asset := CountDown(c.assets[key.asset])],
          c.approvals - {key},
          Unreserve(c.funds, key.owner, c.approvals[key].deposit))
  }

  /** An entry taken out and put back with `left`: the deposit stays, the count goes down and up. */
  function Reentered(c: Chain, key: ApprovalKey, left: nat): Chain
    requires key in c.approvals && key.asset in c.assets
  {
    Chain(c.assets[key.asset := CountUp(CountDown(c.assets[key.asset]))],
          c.approvals[key := c.approvals[key].(amount := left)],
          c.funds)
  }

  function Cancelled(c: Chain, key: ApprovalKey): Option<Chain> {
    if !IsLive(c, key.asset) || key !in c.approvals then None else Some(Released(c, key))
  }

  /** The allowance after a spend of `amount`: the entry goes when nothing remains. */
  function Spent(c: Chain, key: ApprovalKey, amount: nat): Chain
    requires key in c.approvals && key.asset in c.assets && amount <= c.approvals[key].amount
  {
    var remaining := c.approvals[key].amount - amount;
    if remaining == 0 then Released(c, key)
    else c.(approvals := c.approvals[key := c.approvals[key].(amount := remaining)])
  }

  /** Spends the allowance by what was asked for, whatever the move takes along. */
  function TransferredApproved(c: Chain, key: ApprovalKey, dest: AccountId, amount: nat, creatable: bool): Option<Chain> {
    if !IsLive(c, key.asset) || AllowanceOf(c, key) < amount || key !in c.approvals then None
    else
      var moved := Transferred(c, key.asset, key.owner, dest, amount, false, creatable);
      if moved.None? then None else Some(Spent(moved.value, key, amount))
  }

  // ---- Stored state ----

  class Assets {
    const currency: Balances
    var assets: map<AssetId, Asset>
    var approvals: map<ApprovalKey, Approval>

    constructor (currency: Balances)
      ensures this.currency == currency && assets == map[] && approvals == map[]
    {
      this.currency := currency;
      assets, approvals := map[], map[];
    }

    function State(): Chain
      reads this, currency
    {
      Chain(assets, approvals, currency.funds)
    }

    /** Adds to a holder's entry, or opens one and counts it. */
    method Credit(id: AssetId, who: AccountId, amount: nat) returns (ok: bool)
      requires id in assets
      modifies this`assets
      ensures var r := CreditHolder(old(assets)[id], who, amount);
              ok == r.Some? && assets == if ok then old(assets)[id := r.value] else old(assets)
    {
      var a := assets[id];
      if who in a.holders {
        var h := a.holders[who];
        h := h.(balance := SatAdd(h.balance, amount));
        a := a.(holders := a.holders[who := h]);
      } else {
        if a.accounts >= U32_MAX {
          return false;
        }
        var reason := Consumer;
        if a.isSufficient {
          a := a.(sufficients := a.sufficients + 1);
          reason := Sufficient;
        }
        a := a.(accounts := a.accounts + 1);
        a := a.(holders := a.holders[who := Holder(amount, false, reason)]);
      }
      assets := assets[id := a];
      return true;
    }

    /** Takes from a holder's entry, and removes what fell below the minimum. */
    method Debit(id: AssetId, who: AccountId, amount: nat)
      requires id in assets && who in assets[id].holders
      modifies this`assets
      ensures assets == old(assets)[id := DebitHolder(old(assets)[id], who, amount)]
    {
      var a := assets[id];
      var h := a.holders[who];
      h := h.(balance := SatSub(h.balance, amount));
      if h.balance < a.minBalance && h.reason != DepositHeld {
        if h.reason == Sufficient {
          a := a.(sufficients := SatSub(a.sufficients, 1));
        }
        a := a.(accounts := SatSub(a.accounts, 1));
        a := a.(holders := a.holders - {who});
      } else {
        a := a.(holders := a.holders[who := h]);
      }
      assets := assets[id := a];
    }

    /** Both sides are checked first; then the destination is credited and the source debited. */
    method Transfer(id: AssetId, source: AccountId, dest: AccountId, amount: nat, keepAlive: bool, creatable: bool)
      returns (ok: bool)
      modifies this`assets
      ensures var r := Transferred(old(State()), id, source, dest, amount, keepAlive, creatable);
              ok == r.Some? && State() == if ok then r.value else old(State())
    {
      if amount == 0 {
        return true;
      }
      if id !in assets {
        return false;
      }
      var a := assets[id];
      var debit := PrepDebit(a, source, amount, keepAlive, false);
      if debit.None? || !CanIncrease(a, dest, debit.value, false, creatable) {
        return false;
      }
      if source == dest {
        assert assets[id := a] == assets;
        return true;
      }
      ok := Credit(id, dest, debit.value);
      if ok {
        ghost var credited := assets[id];
        Debit(id, source, debit.value);
        assert assets == old(assets)[id := DebitHolder(credited, source, debit.value)];
      }
    }

    /** The balance goes down, then the supply. */
    method Burn(id: AssetId, caller: AccountId, who: AccountId, amount: nat) returns (ok: bool)
      modifies this`assets
      ensures var r := Burnt(old(State()), id, caller, who, amount);
              ok == r.Some? && State() == if ok then r.value else old(State())
    {
      if id !in assets || assets[id].status == Destroying {
        return false;
      }
      if amount == 0 {
        return true;
      }
      var debit := PrepDebit(assets[id], who, amount, false, true);
      if debit.None? || caller != assets[id].admin {
        return false;
      }
      Debit(id, who, debit.value);
      var a := assets[id];
      assets := assets[id := a.(supply := SatSub(a.supply, debit.value))];
      assert assets == old(assets)[id := assets[id]];
      return true;
    }

    /** The balance goes up, then the supply. */
    method Mint(id: AssetId, caller: AccountId, who: AccountId, amount: nat, creatable: bool) returns (ok: bool)
      modifies this`assets
      ensures var r := Minted(old(State()), id, caller, who, amount, creatable);
              ok == r.Some? && State() == if ok then r.value else old(State())
    {
      if amount == 0 {
        return true;
      }
      if id !in assets || !CanIncrease(assets[id], who, amount, true, creatable)
         || assets[id].status != Live || caller != assets[id].issuer {
        return false;
      }
      ok := Credit(id, who, amount);
      if ok {
        var a := assets[id];
        assets := assets[id := a.(supply := SatAdd(a.supply, amount))];
        assert assets == old(assets)[id := assets[id]];
      }
    }

    method Approve(key: ApprovalKey, amount: nat) returns (ok: bool)
      requires currency.Valid()
      modifies this`assets, this`approvals, currency`funds
      ensures currency.Valid()
      ensures var r := Approved(old(State()), key, amount);
              ok == r.Some? && State() == if ok then r.value else old(State())
    {
      if !IsLive(State(), key.asset) {
        return false;
      }
      var before := if key in approvals then approvals[key] else Approval(0, 0);
      ok := currency.ReserveFunds(key.owner, SatSub(APPROVAL_DEPOSIT, before.deposit));
      if ok {
        var a := assets[key.asset];
        assets := assets[key.asset := if key in approvals then a else CountUp(a)];
        approvals := approvals[key := Approval(SatAdd(before.amount, amount), Max(before.deposit, APPROVAL_DEPOSIT))];
      }
    }

    method Release(key: ApprovalKey)
      requires currency.Valid() && key in approvals && key.asset in assets
      modifies this`assets, this`approvals, currency`funds
      ensures currency.Valid()
      ensures State() == Released(old(State()), key)
    {
      currency.UnreserveFunds(key.owner, approvals[key].deposit);
      assets := assets[key.asset := CountDown(assets[key.asset])];
      approvals := approvals - {key};
    }

    method Cancel(key: ApprovalKey) returns (ok: bool)
      requires currency.Valid()
      modifies this`assets, this`approvals, currency`funds
      ensures currency.Valid()
      ensures var r := Cancelled(old(State()), key);
              ok == r.Some? && State() == if ok then r.value else old(State())
    {
      ok := IsLive(State(), key.asset) && key in approvals;
      if ok {
        Release(key);
      }
    }

    method TransferApproved(key: ApprovalKey, dest: AccountId, amount: nat, creatable: bool) returns (ok: bool)
      requires currency.Valid()
      modifies this`assets, this`approvals, currency`funds
      ensures currency.Valid()
      ensures var r := TransferredApproved(old(State()), key, dest, amount, creatable);
              ok == r.Some? && State() == if ok then r.value else old(State())
    {
      if !IsLive(State(), key.asset) || key !in approvals || approvals[key].amount < amount {
        return false;
      }
      ok := Transfer(key.asset, key.owner, dest, amount, false, creatable);
      if ok {
        var remaining := approvals[key].amount - amount;
        if remaining == 0 {
          Release(key);
        } else {
          approvals := approvals[key := approvals[key].(amount := remaining)];
        }
      }
    }
  }
}
