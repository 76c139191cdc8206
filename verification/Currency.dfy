/**
  The slice of the balances pallet that the fee handler and the token extension
  call. The pallet itself is a library outside this repository; each rule taken
  from it is stated beside the member that models it.

  A live imbalance is a handle whose amount the ledger holds. Consuming a handle
  removes it, so using one twice, or after it was merged away, violates a
  precondition, exactly as a move error would in the source.
 */
module Currency {
  import opened Numbers
  import opened Sums

  /** The 32 bytes of a public key, read as a little-endian number. */
  type AccountId = nat

  /** runtime/src/lib.rs: the smallest total an account may keep. */
  const EXISTENTIAL_DEPOSIT: nat := 500

  datatype Account = Account(free: nat, reserved: nat) {
    function Total(): nat { free + reserved }
  }

  /** Only live accounts are stored; an absent account has no balance. */
  type Funds = map<AccountId, Account>

  ghost function Totals(funds: Funds): map<AccountId, nat> {
    map who | who in funds :: funds[who].Total()
  }

  /** Everything that is held in accounts. */
  ghost function Held(funds: Funds): nat {
    Sum(Totals(funds))
  }

  lemma HeldUpdate(funds: Funds, who: AccountId, account: Account)
    ensures who in funds ==> Held(funds[who := account]) == Held(funds) - funds[who].Total() + account.Total()
    ensures who !in funds ==> Held(funds[who := account]) == Held(funds) + account.Total()
  {
    assert Totals(funds[who := account]) == Totals(funds)[who := account.Total()];
    SumUpdate(Totals(funds), who, account.Total());
  }

  lemma HeldBoundsAccount(funds: Funds, who: AccountId)
    requires who in funds
    ensures funds[who].Total() <= Held(funds)
  {
    SumBoundsEntry(Totals(funds), who);
  }

  ghost predicate AllAlive(funds: Funds) {
    forall who :: who in funds ==> EXISTENTIAL_DEPOSIT <= funds[who].Total()
  }

  function FreeOf(funds: Funds, who: AccountId): nat {
    if who in funds then funds[who].free else 0
  }

  function ReservedOf(funds: Funds, who: AccountId): nat {
    if who in funds then funds[who].reserved else 0
  }

  function TotalOf(funds: Funds, who: AccountId): nat {
    if who in funds then funds[who].Total() else 0
  }

  /** A deposit may open an account only when it reaches the existential deposit. */
  predicate Accepts(funds: Funds, who: AccountId, value: nat) {
    who in funds || EXISTENTIAL_DEPOSIT <= value
  }

  function Deposit(funds: Funds, who: AccountId, value: nat): Funds {
    funds[who := Account(FreeOf(funds, who) + value, ReservedOf(funds, who))]
  }

  /** A withdrawal that must keep the account alive. */
  predicate CanWithdraw(funds: Funds, who: AccountId, value: nat) {
    who in funds && value <= funds[who].free && EXISTENTIAL_DEPOSIT <= funds[who].Total() - value
  }

  function Debit(funds: Funds, who: AccountId, value: nat): Funds
    requires CanWithdraw(funds, who, value)
  {
    funds[who := funds[who].(free := funds[who].free - value)]
  }

  /** Reserving needs only free balance; the total, and so the account, stays. */
  function Reserve(funds: Funds, who: AccountId, value: nat): Option<Funds> {
    if value == 0 then Some(funds)
    else if FreeOf(funds, who) < value then None
    else Some(funds[who := Account(funds[who].free - value, funds[who].reserved + value)])
  }

  /** Unreserving returns what is there, up to `value`, and never fails. */
  function Unreserve(funds: Funds, who: AccountId, value: nat): Funds {
    if who !in funds then funds
    else
      var actual := Min(funds[who].reserved, value);
      funds[who := Account(funds[who].free + actual, funds[who].reserved - actual)]
  }

  lemma {:induction false} ReservingKeepsTotals(funds: Funds, who: AccountId, value: nat)
    ensures Held(Unreserve(funds, who, value)) == Held(funds)
    ensures Reserve(funds, who, value).Some? ==> Held(Reserve(funds, who, value).value) == Held(funds)
    ensures AllAlive(funds) ==> AllAlive(Unreserve(funds, who, value))
    ensures AllAlive(funds) && Reserve(funds, who, value).Some? ==> AllAlive(Reserve(funds, who, value).value)
  {
    if who in funds {
      HeldUpdate(funds, who, Unreserve(funds, who, value)[who]);
      if value > 0 && Reserve(funds, who, value).Some? {
        HeldUpdate(funds, who, Reserve(funds, who, value).value[who]);
      }
    }
  }

  datatype NegativeImbalance = NegativeImbalance(id: nat)

  datatype PositiveImbalance = PositiveImbalance(id: nat)

  /** What is left when two opposite imbalances meet. */
  datatype SameOrOther = Neither | Same(rest: NegativeImbalance) | Other(excess: PositiveImbalance)

  type Debts = map<NegativeImbalance, nat>

  /** The observable ledger: recorded issuance and accounts, without imbalances. */
  datatype Ledger = Ledger(issuance: nat, funds: Funds)

  /** The ledger accounts for all value when nothing is in flight but `live`. */
  ghost predicate Conserved(l: Ledger, live: nat) {
    && AllAlive(l.funds)
    && l.issuance <= U128_MAX
    && l.issuance == Held(l.funds) + live
  }

  class Balances {
    var issuance: nat
    var funds: Funds
    var negative: Debts
    var positive: map<PositiveImbalance, nat>
    var nextId: nat

    /** Recorded issuance plus unrecorded creations equals what exists. */
    ghost predicate Valid()
      reads this
    {
      && AllAlive(funds)
      && issuance <= U128_MAX
      && issuance + Sum(positive) == Held(funds) + Sum(negative)
      && (forall i :: i in negative ==> i.id < nextId)
      && (forall i :: i in positive ==> i.id < nextId)
    }

    function Snapshot(): Ledger
      reads this
    {
      Ledger(issuance, funds)
    }

    /** A ledger at genesis: every balance recorded, no imbalance live. */
    constructor (l: Ledger)
      requires Conserved(l, 0)
      ensures Valid() && Snapshot() == l && negative == map[] && positive == map[]
    {
      issuance, funds := l.issuance, l.funds;
      negative, positive, nextId := map[], map[], 0;
    }

    /** `split`: the first part takes up to `amount`, the second the rest. */
    method Split(i: NegativeImbalance, amount: nat) returns (first: NegativeImbalance, second: NegativeImbalance)
      requires Valid() && i in negative
      modifies this`negative, this`nextId
      ensures Valid()
      ensures first != second && first !in old(negative) && second !in old(negative)
      ensures negative == (old(negative) - {i})[first := Min(old(negative)[i], amount)]
                                               [second := old(negative)[i] - Min(old(negative)[i], amount)]
    {
      var value := negative[i];
      var left := Min(value, amount);
      first, second := NegativeImbalance(nextId), NegativeImbalance(nextId + 1);
      nextId := nextId + 2;
      SumDivide(negative, i, first, second, left);
      negative := (negative - {i})[first := left][second := value - left];
    }

    /** `tips.merge_into(&mut fees)`: a saturating add in place that cannot saturate. */
    method MergeInto(tips: NegativeImbalance, fees: NegativeImbalance)
      requires Valid() && Sum(positive) == 0
      requires tips in negative && fees in negative && tips != fees
      modifies this`negative
      ensures Valid()
      ensures negative == (old(negative) - {tips})[fees := old(negative)[fees] + old(negative)[tips]]
    {
      SumBoundsPair(negative, tips, fees);
      SumRemove(negative, tips);
      var merged := SatAdd(negative[fees], negative[tips]);
      negative := negative - {tips};
      SumUpdate(negative, fees, merged);
      negative := negative[fees := merged];
    }

    /** Dropping a negative imbalance burns it; the saturating subtraction is exact. */
    method Drop(i: NegativeImbalance)
      requires Valid() && Sum(positive) == 0 && i in negative
      modifies this`negative, this`issuance
      ensures Valid()
      ensures negative == old(negative) - {i}
      ensures old(negative)[i] <= old(issuance) && issuance == old(issuance) - old(negative)[i]
    {
      SumRemove(negative, i);
      issuance := SatSub(issuance, negative[i]);
      negative := negative - {i};
    }

    /**
      `deposit_creating`: credits `who` with value out of nothing, which the returned
      positive imbalance accounts for; it is zero when the deposit is refused.
     */
    method DepositCreating(who: AccountId, value: nat) returns (made: PositiveImbalance)
      requires Valid()
      modifies this`funds, this`positive, this`nextId
      ensures Valid()
      ensures made !in old(positive)
      ensures var taken := value > 0 && Accepts(old(funds), who, value)
                           && FreeOf(old(funds), who) + value <= U128_MAX;
              && funds == (if taken then Deposit(old(funds), who, value) else old(funds))
              && positive == old(positive)[made := if taken then value else 0]
    {
      made := PositiveImbalance(nextId);
      nextId := nextId + 1;
      var created := 0;
      if value > 0 && Accepts(funds, who, value) && FreeOf(funds, who) + value <= U128_MAX {
        var account := Account(FreeOf(funds, who) + value, ReservedOf(funds, who));
        HeldUpdate(funds, who, account);
        funds := funds[who := account];
        created := value;
      }
      SumUpdate(positive, made, created);
      positive := positive[made := created];
    }

    /** `offset`: opposite imbalances cancel and the difference survives. */
    method Offset(debt: NegativeImbalance, credit: PositiveImbalance) returns (r: SameOrOther)
      requires Valid() && debt in negative && credit in positive
      modifies this`negative, this`positive, this`nextId
      ensures Valid()
      ensures r.Same? <==> old(negative)[debt] > old(positive)[credit]
      ensures r.Other? <==> old(negative)[debt] < old(positive)[credit]
      ensures r.Same? ==> r.rest !in old(negative)
      ensures r.Other? ==> r.excess !in old(positive)
      ensures negative == if r.Same? then (old(negative) - {debt})[r.rest := old(negative)[debt] - old(positive)[credit]]
                          else old(negative) - {debt}
      ensures positive == if r.Other? then (old(positive) - {credit})[r.excess := old(positive)[credit] - old(negative)[debt]]
                          else old(positive) - {credit}
    {
      var a, b := negative[debt], positive[credit];
      var same, other := NegativeImbalance(nextId), PositiveImbalance(nextId);
      nextId := nextId + 1;
      if a > b {
        SumExchange(negative, debt, same, a - b);
        SumRemove(positive, credit);
        negative, positive := (negative - {debt})[same := a - b], positive - {credit};
        return Same(same);
      } else if a < b {
        SumRemove(negative, debt);
        SumExchange(positive, credit, other, b - a);
        negative, positive := negative - {debt}, (positive - {credit})[other := b - a];
        return Other(other);
      } else {
        SumRemove(negative, debt);
        SumRemove(positive, credit);
        negative, positive := negative - {debt}, positive - {credit};
        return Neither;
      }
    }

    /**
      `resolve_creating`: deposit, offset, drop the difference. Since the value comes
      out of recorded issuance the deposit cannot overflow, so it is either credited
      whole or, when it would open an account below the existential deposit, burnt.
     */
    method ResolveCreating(who: AccountId, i: NegativeImbalance)
      requires Valid() && positive == map[] && i in negative
      modifies this
      ensures Valid() && positive == map[]
      ensures negative == old(negative) - {i}
      ensures old(negative)[i] <= old(issuance)
      ensures Snapshot() == (if old(negative)[i] == 0 then old(Snapshot())
                             else if Accepts(old(funds), who, old(negative)[i])
                             then old(Snapshot()).(funds := Deposit(old(funds), who, old(negative)[i]))
                             else old(Snapshot()).(issuance := old(issuance) - old(negative)[i]))
    {
      var value := negative[i];
      SumBoundsEntry(negative, i);
      if who in funds {
        HeldBoundsAccount(funds, who);
      }
      var made := DepositCreating(who, value);
      var r := Offset(i, made);
      assert positive == map[];
      match r {
        case Neither =>
          assert negative == old(negative) - {i};
        case Same(rest) =>
          Drop(rest);
          assert negative == old(negative) - {i};
        case Other(excess) =>
          assert false;
      }
    }

    /**
      `withdraw` with the keep-alive requirement: takes free balance out of an account
      into a live imbalance, or fails without effect. Nothing is taken for zero.
     */
    method Withdraw(who: AccountId, value: nat) returns (r: Option<NegativeImbalance>)
      requires Valid()
      modifies this`funds, this`negative, this`nextId
      ensures Valid()
      ensures r.Some? <==> value == 0 || CanWithdraw(old(funds), who, value)
      ensures r.None? ==> funds == old(funds) && negative == old(negative)
      ensures r.Some? ==>
                && r.value !in old(negative)
                && negative == old(negative)[r.value := value]
                && funds == (if value == 0 then old(funds) else Debit(old(funds), who, value))
    {
      if value > 0 && !CanWithdraw(funds, who, value) {
        return None;
      }
      var i := NegativeImbalance(nextId);
      nextId := nextId + 1;
      if value > 0 {
        var account := funds[who].(free := funds[who].free - value);
        HeldUpdate(funds, who, account);
        funds := funds[who := account];
      }
      SumUpdate(negative, i, value);
      negative := negative[i := value];
      return Some(i);
    }

    method ReserveFunds(who: AccountId, value: nat) returns (ok: bool)
      requires Valid()
      modifies this`funds
      ensures Valid()
      ensures ok <==> Reserve(old(funds), who, value).Some?
      ensures funds == if ok then Reserve(old(funds), who, value).value else old(funds)
    {
      var r := Reserve(funds, who, value);
      ok := r.Some?;
      if ok {
        ReservingKeepsTotals(funds, who, value);
        funds := r.value;
      }
    }

    method UnreserveFunds(who: AccountId, value: nat)
      requires Valid()
      modifies this`funds
      ensures Valid()
      ensures funds == Unreserve(old(funds), who, value)
    {
      ReservingKeepsTotals(funds, who, value);
      if who in funds {
        var actual := Min(funds[who].reserved, value);
        funds := funds[who := Account(funds[who].free + actual, funds[who].reserved - actual)];
      }
    }
  }
}
