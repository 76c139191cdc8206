/**
  `Author`, `TreasuryLunes` and `DealWithFees`: how fees and tips are divided
  between the block author, the treasury and the burn.
 */
module FeeHandling {
  import opened Numbers
  import opened Currency

  const AUTHOR_FEE_SHARE: nat := 75
  const TREASURY_BURN_FEE_SHARE: nat := 25
  const TREASURY_HALF_SHARE: nat := 50
  const BURN_HALF_SHARE: nat := 50
  const DEFLATION_ISSUANCE_THRESHOLD: nat := 50_000_000 * UNIT

  /** The treasury key 2c11d2af..f26a, its bytes read as a little-endian number. */
  const TREASURY: AccountId := 0x6af232677a55f383394f215d86a094ae7bb81c1cc5392552e54711f8afd2112c

  // ---- What the handler is meant to compute, without imbalances ----

  /** The quarter of `x` for treasury and burn, as far as the u128 product reaches. */
  function TreasurySide(x: nat): nat {
    Min(x / 4, U128_MAX / 100)
  }

  function AuthorSide(x: nat): nat {
    x - TreasurySide(x)
  }

  function Burn(l: Ledger, v: nat): Ledger {
    l.(issuance := SatSub(l.issuance, v))
  }

  /** Value leaves circulation into an account, or is burnt when nobody takes it. */
  function Credit(l: Ledger, who: Option<AccountId>, v: nat): Ledger {
    if v == 0 then l
    else if who.Some? && Accepts(l.funds, who.value, v) then l.(funds := Deposit(l.funds, who.value, v))
    else Burn(l, v)
  }

  /** Above the threshold half of the treasury side is burnt. */
  function TreasuryAndBurn(l: Ledger, t: nat): Ledger {
    if l.issuance > DEFLATION_ISSUANCE_THRESHOLD
    then Burn(Credit(l, Some(TREASURY), t / 2), t - t / 2)
    else Credit(l, Some(TREASURY), t)
  }

  /** Fees and tips worth `x` in a block by `author`; issuance is read after the author is paid. */
  function Settle(l: Ledger, author: Option<AccountId>, x: nat): Ledger {
    TreasuryAndBurn(Credit(l, author, AuthorSide(x)), TreasurySide(x))
  }

  // ---- The library's `ration` ----

  /** `ration(a, b)` takes `floor(x*a / (a+b))` with a saturating product. */
  function RationFirst(x: nat, a: nat, b: nat): nat
    requires a + b > 0
  {
    SatMul(x, a) / (a + b)
  }

  /**
    The outer ration takes a quarter, exactly as long as a quarter fits below the
    saturated product. The inner ration never saturates.
   */
  lemma RationShares(x: nat)
    ensures RationFirst(x, TREASURY_BURN_FEE_SHARE, AUTHOR_FEE_SHARE) == TreasurySide(x)
    ensures TreasurySide(x) == x / 4 <==> x / 4 <= U128_MAX / 100
  {
  }

  lemma HalvesExactly(t: nat)
    requires t <= U128_MAX / 100
    ensures RationFirst(t, TREASURY_HALF_SHARE, BURN_HALF_SHARE) == t / 2
  {
  }

  method Ration(bank: Balances, i: NegativeImbalance, a: nat, b: nat)
    returns (first: NegativeImbalance, second: NegativeImbalance)
    requires bank.Valid() && i in bank.negative && a + b > 0
    modifies bank`negative, bank`nextId
    ensures bank.Valid()
    ensures first != second && first !in old(bank.negative) && second !in old(bank.negative)
    ensures var taken := Min(old(bank.negative)[i], RationFirst(old(bank.negative)[i], a, b));
            bank.negative == (old(bank.negative) - {i})[first := taken][second := old(bank.negative)[i] - taken]
  {
    first, second := bank.Split(i, RationFirst(bank.negative[i], a, b));
  }

  /** `on_unbalanced` of a receiver: a zero imbalance vanishes, anything else is resolved or dropped. */
  method OnUnbalanced(bank: Balances, who: Option<AccountId>, i: NegativeImbalance)
    requires bank.Valid() && bank.positive == map[] && i in bank.negative
    modifies bank
    ensures bank.Valid() && bank.positive == map[]
    ensures bank.negative == old(bank.negative) - {i}
    ensures bank.Snapshot() == Credit(old(bank.Snapshot()), who, old(bank.negative)[i])
  {
    if who.Some? {
      bank.ResolveCreating(who.value, i);
    } else {
      bank.Drop(i);
    }
  }

  ghost function Owners(items: seq<NegativeImbalance>): set<NegativeImbalance> {
    set i | i in items
  }

  /** The first item is the fee, the second, if there is one, the tip. */
  function FeeAndTip(items: seq<NegativeImbalance>): nat {
    Min(2, |items|)
  }

  /** The whole handler: fee and tip are settled as one amount, anything further is burnt. */
  ghost function Handled(l: Ledger, author: Option<AccountId>, debts: Debts, items: seq<NegativeImbalance>): Ledger
    requires forall i :: i in items ==> i in debts
  {
    if items == [] then l
    else Burn(Settle(l, author, Worth(debts, items[..FeeAndTip(items)])), Worth(debts, items[FeeAndTip(items)..]))
  }

  lemma {:induction false} WorthUnchanged(before: Debts, after: Debts, items: seq<NegativeImbalance>)
    requires forall i :: i in items ==> i in before && i in after && before[i] == after[i]
    ensures Worth(before, items) == Worth(after, items)
  {
    if items != [] {
      WorthUnchanged(before, after, items[1..]);
    }
  }

  ghost predicate Distinct(items: seq<NegativeImbalance>) {
    forall j, k :: 0 <= j < k < |items| ==> items[j] != items[k]
  }

  ghost function Worth(debts: Debts, items: seq<NegativeImbalance>): nat
    requires forall i :: i in items ==> i in debts
  {
    if items == [] then 0 else debts[items[0]] + Worth(debts, items[1..])
  }

  /** Taking the fee and the tip leaves exactly the rest of the iterator, with its worth. */
  lemma TakenThenRest(debts: Debts, items: seq<NegativeImbalance>)
    requires Distinct(items) && forall i :: i in items ==> i in debts
    ensures var k := FeeAndTip(items);
            var left := debts - Owners(items[..k]);
            && Distinct(items[k..])
            && (forall i :: i in items[k..] ==> i in left)
            && Worth(left, items[k..]) == Worth(debts, items[k..])
            && left - Owners(items[k..]) == debts - Owners(items)
  {
    var k := FeeAndTip(items);
    assert items == items[..k] + items[k..];
    WorthUnchanged(debts, debts - Owners(items[..k]), items[k..]);
  }

  lemma OwnersNext(items: seq<NegativeImbalance>, n: nat)
    requires n < |items| && Distinct(items)
    ensures items[n] !in Owners(items[..n])
    ensures Owners(items[..n + 1]) == Owners(items[..n]) + {items[n]}
  {
  }

  /** The iterator's remaining items are dropped with it, one after the other. */
  method DropAll(bank: Balances, items: seq<NegativeImbalance>)
    requires bank.Valid() && bank.positive == map[]
    requires Distinct(items) && forall i :: i in items ==> i in bank.negative
    modifies bank`negative, bank`issuance
    ensures bank.Valid()
    ensures bank.negative == old(bank.negative) - Owners(items)
    ensures bank.issuance == old(bank.issuance) - Worth(old(bank.negative), items)
  {
    ghost var debts := bank.negative;
    var n := 0;
    while n < |items|
      invariant n <= |items|
      invariant bank.Valid()
      invariant bank.negative == debts - Owners(items[..n])
      invariant bank.issuance == old(bank.issuance) - Worth(debts, items) + Worth(debts, items[n..])
    {
      OwnersNext(items, n);
      bank.Drop(items[n]);
      assert items[n..][1..] == items[n + 1..];
      n := n + 1;
    }
    assert items[..|items|] == items;
  }

  /** The division of a merged imbalance, from the first ration to the treasury and the burn. */
  method Distribute(bank: Balances, author: Option<AccountId>, fees: NegativeImbalance)
    requires bank.Valid() && bank.positive == map[] && fees in bank.negative
    modifies bank
    ensures bank.Valid() && bank.positive == map[]
    ensures bank.negative == old(bank.negative) - {fees}
    ensures bank.Snapshot() == Settle(old(bank.Snapshot()), author, old(bank.negative)[fees])
  {
    ghost var x := bank.negative[fees];
    ghost var start := bank.Snapshot();
    RationShares(x);
    var toTreasuryBurn, toAuthor := Ration(bank, fees, TREASURY_BURN_FEE_SHARE, AUTHOR_FEE_SHARE);
    assert bank.negative[toTreasuryBurn] == TreasurySide(x) && bank.negative[toAuthor] == AuthorSide(x);
    OnUnbalanced(bank, author, toAuthor);
    assert bank.Snapshot() == Credit(start, author, AuthorSide(x));
    assert bank.negative - {toTreasuryBurn} == old(bank.negative) - {fees};
    DistributeTreasuryBurn(bank, toTreasuryBurn);
  }

  /** The deflation branch: issuance is read here, after the author's share has settled. */
  method DistributeTreasuryBurn(bank: Balances, share: NegativeImbalance)
    requires bank.Valid() && bank.positive == map[] && share in bank.negative
    requires bank.negative[share] <= U128_MAX / 100
    modifies bank
    ensures bank.Valid() && bank.positive == map[]
    ensures bank.negative == old(bank.negative) - {share}
    ensures bank.Snapshot() == TreasuryAndBurn(old(bank.Snapshot()), old(bank.negative)[share])
  {
    if bank.issuance > DEFLATION_ISSUANCE_THRESHOLD {
      HalvesExactly(bank.negative[share]);
      var toTreasury, toBurn := Ration(bank, share, TREASURY_HALF_SHARE, BURN_HALF_SHARE);
      OnUnbalanced(bank, Some(TREASURY), toTreasury);
      assert bank.negative - {toBurn} == old(bank.negative) - {share};
      bank.Drop(toBurn);
    } else {
      OnUnbalanced(bank, Some(TREASURY), share);
    }
  }

  /** The tip, if there is one, is merged into the fee. */
  method Unify(bank: Balances, items: seq<NegativeImbalance>) returns (fees: NegativeImbalance)
    requires bank.Valid() && bank.positive == map[]
    requires items != [] && Distinct(items) && forall i :: i in items ==> i in bank.negative
    modifies bank`negative
    ensures bank.Valid() && fees in bank.negative
    ensures bank.negative - {fees} == old(bank.negative) - Owners(items[..FeeAndTip(items)])
    ensures bank.negative[fees] == Worth(old(bank.negative), items[..FeeAndTip(items)])
  {
    fees := items[0];
    ghost var debts := bank.negative;
    if |items| > 1 {
      assert items[..2] == [items[0], items[1]] && items[..2][1..] == [items[1]];
      assert Worth(debts, [items[1]]) == debts[items[1]];
      bank.MergeInto(items[1], fees);
    } else {
      assert items[..1] == [items[0]];
      assert Worth(debts, [items[0]]) == debts[items[0]];
    }
  }

  /**
    `DealWithFees::on_unbalanceds`. Fee and tip are unified and distributed; further
    items are burnt when the iterator is dropped at the end. Every call it makes keeps
    the ledger valid, so issuance equals accounts plus live imbalances at each step; at
    the end none of the items is live.
   */
  method DealWithFees(bank: Balances, author: Option<AccountId>, items: seq<NegativeImbalance>)
    requires bank.Valid() && bank.positive == map[]
    requires Distinct(items) && forall i :: i in items ==> i in bank.negative
    modifies bank
    ensures bank.Valid() && bank.positive == map[]
    ensures bank.negative == old(bank.negative) - Owners(items)
    ensures bank.Snapshot() == Handled(old(bank.Snapshot()), author, old(bank.negative), items)
  {
    if items == [] {
      return;
    }
    TakenThenRest(bank.negative, items);
    var fees := Unify(bank, items);
    Distribute(bank, author, fees);
    DropAll(bank, items[FeeAndTip(items)..]);
  }
}
