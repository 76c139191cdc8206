/**
  Whole runs of charged transactions: conservation, the deflation threshold, and what
  the block author earns. The transaction-payment pallet, a library, withdraws the fee
  and tip from the payer, splits the tip off and hands both to `DealWithFees`.
 */
module FeeRuns {
  import opened Numbers
  import opened Currency
  import opened FeeHandling

  /** A transaction's charge: `paid` in all, of which up to `tip` is the tip. */
  datatype Payment = Payment(payer: AccountId, paid: nat, tip: nat, author: Option<AccountId>)

  predicate Charged(l: Ledger, p: Payment) {
    p.paid > 0 && CanWithdraw(l.funds, p.payer, p.paid)
  }

  function Withdrawn(l: Ledger, p: Payment): Ledger
    requires Charged(l, p)
  {
    l.(funds := Debit(l.funds, p.payer, p.paid))
  }

  /** A payer who cannot pay is refused and nothing changes. */
  function Charge(l: Ledger, p: Payment): Ledger {
    if Charged(l, p) then Settle(Withdrawn(l, p), p.author, p.paid) else l
  }

  function Run(l: Ledger, ps: seq<Payment>): Ledger
    decreases |ps|
  {
    if ps == [] then l else Run(Charge(l, ps[0]), ps[1..])
  }

  /**
    The steps behind one charge, on live imbalances. How the payment divides into fee
    and tip does not matter to the outcome, and no imbalance outlives the call.
   */
  method ChargeFee(bank: Balances, p: Payment)
    requires bank.Valid() && bank.positive == map[] && bank.negative == map[]
    modifies bank
    ensures bank.Valid() && bank.positive == map[] && bank.negative == map[]
    ensures bank.Snapshot() == Charge(old(bank.Snapshot()), p)
  {
    if p.paid == 0 {
      return;
    }
    var paid := bank.Withdraw(p.payer, p.paid);
    if paid.Some? {
      ghost var withdrawn := bank.Snapshot();
      var tip, fee := bank.Split(paid.value, p.tip);
      ghost var debts := bank.negative;
      assert [fee, tip][..2] == [fee, tip] && [fee, tip][1..] == [tip] && [fee, tip][2..] == [];
      assert Worth(debts, [tip]) == debts[tip];
      assert Worth(debts, [fee, tip]) == p.paid;
      DealWithFees(bank, p.author, [fee, tip]);
      assert bank.Snapshot() == Burn(Settle(withdrawn, p.author, p.paid), 0);
    }
  }

  // ---- Conservation ----

  lemma CreditConserves(l: Ledger, who: Option<AccountId>, v: nat, live: nat)
    requires Conserved(l, live + v)
    ensures Conserved(Credit(l, who, v), live)
  {
    if who.Some? {
      HeldUpdate(l.funds, who.value, Account(FreeOf(l.funds, who.value) + v, ReservedOf(l.funds, who.value)));
    }
  }

  /** Of what comes in, everything is either in an account or gone from issuance. */
  lemma SettleConserves(l: Ledger, author: Option<AccountId>, x: nat, live: nat)
    requires Conserved(l, live + x)
    ensures Conserved(Settle(l, author, x), live)
    ensures Settle(l, author, x).issuance <= l.issuance
  {
    var t := TreasurySide(x);
    CreditConserves(l, author, AuthorSide(x), live + t);
    var paid := Credit(l, author, AuthorSide(x));
    if paid.issuance > DEFLATION_ISSUANCE_THRESHOLD {
      CreditConserves(paid, Some(TREASURY), t / 2, live + (t - t / 2));
    } else {
      CreditConserves(paid, Some(TREASURY), t, live);
    }
  }

  lemma WithdrawConserves(l: Ledger, p: Payment)
    requires Conserved(l, 0) && Charged(l, p)
    ensures Conserved(Withdrawn(l, p), p.paid)
    ensures p.paid <= l.issuance
  {
    HeldUpdate(l.funds, p.payer, Debit(l.funds, p.payer, p.paid)[p.payer]);
    HeldBoundsAccount(l.funds, p.payer);
  }

  lemma ChargeConserves(l: Ledger, p: Payment)
    requires Conserved(l, 0)
    ensures Conserved(Charge(l, p), 0)
    ensures Charge(l, p).issuance <= l.issuance
  {
    if Charged(l, p) {
      WithdrawConserves(l, p);
      SettleConserves(Withdrawn(l, p), p.author, p.paid, 0);
    }
  }

  /** Over any run: issuance is exactly what accounts hold, and it never rises. */
  lemma {:induction false} RunConserves(l: Ledger, ps: seq<Payment>)
    requires Conserved(l, 0)
    ensures Conserved(Run(l, ps), 0)
    ensures Run(l, ps).issuance <= l.issuance
    decreases |ps|
  {
    if ps != [] {
      ChargeConserves(l, ps[0]);
      RunConserves(Charge(l, ps[0]), ps[1..]);
    }
  }

  // ---- Where the value goes ----

  /**
    With live, distinct recipients: the author gets the author side, the treasury half
    or all of the rest, the other half leaves issuance, and nobody else is touched.
   */
  lemma SettleDistributes(l: Ledger, author: AccountId, x: nat)
    requires author in l.funds && TREASURY in l.funds && author != TREASURY
    requires x <= l.issuance
    ensures var l' := Settle(l, Some(author), x);
            var t := TreasurySide(x);
            var burns := l.issuance > DEFLATION_ISSUANCE_THRESHOLD;
            && l'.funds.Keys == l.funds.Keys
            && l'.funds[author] == l.funds[author].(free := l.funds[author].free + (x - t))
            && l'.funds[TREASURY] == l.funds[TREASURY].(free := l.funds[TREASURY].free + if burns then t / 2 else t)
            && l'.issuance == l.issuance - (if burns then t - t / 2 else 0)
            && (forall w :: w in l.funds && w != author && w != TREASURY ==> l'.funds[w] == l.funds[w])
  {
  }

  /**
    Without an author the author side is burnt first, and it is what remains of issuance
    that is compared with the threshold: a settlement that starts above it may end in the
    branch below it.
   */
  lemma SettleWithoutAuthor(l: Ledger, x: nat)
    requires TREASURY in l.funds && x <= l.issuance
    ensures var l' := Settle(l, None, x);
            var t := TreasurySide(x);
            var left := l.issuance - (x - t);
            var burns := left > DEFLATION_ISSUANCE_THRESHOLD;
            && l'.issuance == left - (if burns then t - t / 2 else 0)
            && l'.funds == if t == 0 then l.funds else
                 l.funds[TREASURY := l.funds[TREASURY].(free := l.funds[TREASURY].free + if burns then t / 2 else t)]
  {
    assert l.funds[TREASURY := l.funds[TREASURY]] == l.funds;
  }

  /** Below saturation: a quarter, an eighth to the treasury, at most one planck more to the burn. */
  lemma TwoLevelShares(x: nat)
    requires x / 4 <= U128_MAX / 100
    ensures TreasurySide(x) == x / 4
    ensures TreasurySide(x) / 2 == x / 8
    ensures 0 <= (TreasurySide(x) - TreasurySide(x) / 2) - x / 8 <= 1
  {
  }

  /**
    Exactly when a settlement leaves issuance alone: there is nothing to settle, or the
    author takes the author side and, unless the treasury side is zero, issuance is not
    above the threshold and the treasury takes it all.
   */
  lemma SettleKeepsIssuanceIff(l: Ledger, author: Option<AccountId>, x: nat)
    requires x <= l.issuance
    ensures Settle(l, author, x).issuance == l.issuance <==>
              (x == 0
               || (&& author.Some?
                   && Accepts(l.funds, author.value, AuthorSide(x))
                   && (TreasurySide(x) == 0
                       || (&& l.issuance <= DEFLATION_ISSUANCE_THRESHOLD
                           && (author.value == TREASURY || Accepts(l.funds, TREASURY, TreasurySide(x)))))))
  {
  }

  // ---- The deflation threshold ----

  ghost predicate LiveRecipients(l: Ledger, ps: seq<Payment>) {
    && TREASURY in l.funds
    && forall p :: p in ps ==> p.author.Some? && p.author.value in l.funds
  }

  /** What one charge burns above the threshold. */
  function BurnShare(x: nat): nat {
    TreasurySide(x) - TreasurySide(x) / 2
  }

  lemma SettleWithLiveRecipients(l: Ledger, author: AccountId, x: nat)
    requires TREASURY in l.funds && author in l.funds && x <= l.issuance
    ensures Settle(l, Some(author), x).funds.Keys == l.funds.Keys
    ensures Settle(l, Some(author), x).issuance ==
            l.issuance - (if l.issuance > DEFLATION_ISSUANCE_THRESHOLD then BurnShare(x) else 0)
  {
    var paid := Credit(l, Some(author), AuthorSide(x));
    assert paid.issuance == l.issuance && paid.funds.Keys == l.funds.Keys;
    assert TreasurySide(x) <= paid.issuance;
  }

  lemma ChargeWithLiveRecipients(l: Ledger, p: Payment)
    requires Conserved(l, 0) && LiveRecipients(l, [p])
    ensures l.funds.Keys == Charge(l, p).funds.Keys
    ensures Charge(l, p).issuance ==
            l.issuance - (if Charged(l, p) && l.issuance > DEFLATION_ISSUANCE_THRESHOLD then BurnShare(p.paid) else 0)
  {
    assert p in [p];
    if Charged(l, p) {
      WithdrawConserves(l, p);
      SettleWithLiveRecipients(Withdrawn(l, p), p.author.value, p.paid);
    }
  }

  /** At or below the threshold no later fee changes issuance. */
  lemma {:induction false} StableBelowThreshold(l: Ledger, ps: seq<Payment>)
    requires Conserved(l, 0) && LiveRecipients(l, ps)
    requires l.issuance <= DEFLATION_ISSUANCE_THRESHOLD
    ensures Run(l, ps).issuance == l.issuance
    decreases |ps|
  {
    if ps != [] {
      assert forall p :: p in [ps[0]] ==> p in ps;
      ChargeWithLiveRecipients(l, ps[0]);
      ChargeConserves(l, ps[0]);
      StableBelowThreshold(Charge(l, ps[0]), ps[1..]);
    }
  }

  /** No run falls below the threshold by a whole burn share of its largest payment. */
  lemma {:induction false} ThresholdUndershoot(l: Ledger, ps: seq<Payment>, largest: nat)
    requires Conserved(l, 0) && LiveRecipients(l, ps)
    requires l.issuance > DEFLATION_ISSUANCE_THRESHOLD
    requires forall p :: p in ps ==> BurnShare(p.paid) <= largest
    ensures Run(l, ps).issuance + largest > DEFLATION_ISSUANCE_THRESHOLD
    decreases |ps|
  {
    if ps != [] {
      assert forall p :: p in [ps[0]] ==> p in ps;
      ChargeWithLiveRecipients(l, ps[0]);
      ChargeConserves(l, ps[0]);
      if Charge(l, ps[0]).issuance > DEFLATION_ISSUANCE_THRESHOLD {
        ThresholdUndershoot(Charge(l, ps[0]), ps[1..], largest);
      } else {
        StableBelowThreshold(Charge(l, ps[0]), ps[1..]);
      }
    }
  }

  /**
    Without an author the threshold protects nothing: at the threshold, with the treasury
    live, the fee of a plain transfer costs issuance its whole author side.
   */
  lemma NoAuthorBurnsBelowThreshold()
    ensures var payer, fee := 1, 200_055;
            var rich := DEFLATION_ISSUANCE_THRESHOLD - UNIT;
            var l := Ledger(DEFLATION_ISSUANCE_THRESHOLD, map[payer := Account(rich, 0), TREASURY := Account(UNIT, 0)]);
            var after := Charge(l, Payment(payer, fee, 0, None));
            && Conserved(l, 0)
            && after.issuance == DEFLATION_ISSUANCE_THRESHOLD - 150_042
            && after.funds[TREASURY].free == UNIT + 50_013
            && after.funds[payer].free == rich - fee
  {
    var rich := DEFLATION_ISSUANCE_THRESHOLD - UNIT;
    var none: Funds := map[];
    var one := none[1 := Account(rich, 0)];
    var funds := one[TREASURY := Account(UNIT, 0)];
    assert Totals(none) == map[];
    HeldUpdate(none, 1, Account(rich, 0));
    HeldUpdate(one, TREASURY, Account(UNIT, 0));
    assert funds == map[1 := Account(rich, 0), TREASURY := Account(UNIT, 0)];
    SettleWithoutAuthor(Withdrawn(Ledger(DEFLATION_ISSUANCE_THRESHOLD, funds), Payment(1, 200_055, 0, None)), 200_055);
  }

  // ---- What an author earns ----

  /** An author's part in a run: what its blocks charged, in how many charges, its share of it, and what it paid itself. */
  datatype Tally = Tally(charged: nat, count: nat, share: nat, paid: nat) {
    function Plus(other: Tally): Tally {
      Tally(charged + other.charged, count + other.count, share + other.share, paid + other.paid)
    }
  }

  function ChargeTally(l: Ledger, p: Payment, author: AccountId): Tally {
    if !Charged(l, p) then Tally(0, 0, 0, 0)
    else
      var paid := if p.payer == author then p.paid else 0;
      if p.author == Some(author) then Tally(p.paid, 1, AuthorSide(p.paid), paid) else Tally(0, 0, 0, paid)
  }

  function RunTally(l: Ledger, ps: seq<Payment>, author: AccountId): Tally
    decreases |ps|
  {
    if ps == [] then Tally(0, 0, 0, 0)
    else ChargeTally(l, ps[0], author).Plus(RunTally(Charge(l, ps[0]), ps[1..], author))
  }

  /** u128 holds 25 times any payment: true of every supply below 2^121. */
  predicate Unsaturated(l: Ledger) {
    l.issuance / 4 <= U128_MAX / 100
  }

  lemma SettleIncome(l: Ledger, to: Option<AccountId>, x: nat, author: AccountId)
    requires author in l.funds
    ensures var l' := Settle(l, to, x);
            var share := if to == Some(author) then AuthorSide(x) else 0;
            && author in l'.funds
            && l'.funds[author].Total() >= l.funds[author].Total() + share
            && (author != TREASURY ==> l'.funds[author].Total() == l.funds[author].Total() + share)
  {
    var paid := Credit(l, to, AuthorSide(x));
    assert author in paid.funds;
  }

  lemma ChargeIncome(l: Ledger, p: Payment, author: AccountId)
    requires author in l.funds
    ensures var l' := Charge(l, p);
            var tally := ChargeTally(l, p, author);
            && author in l'.funds
            && l'.funds[author].Total() + tally.paid >= l.funds[author].Total() + tally.share
            && (author != TREASURY ==> l'.funds[author].Total() + tally.paid == l.funds[author].Total() + tally.share)
  {
    if Charged(l, p) {
      SettleIncome(Withdrawn(l, p), p.author, p.paid, author);
    }
  }

  lemma AuthorSideShare(x: nat)
    requires x / 4 <= U128_MAX / 100
    ensures 75 * x <= 100 * AuthorSide(x) <= 75 * x + 75
  {
  }

  /**
    Over any run, a live author ends with what it had, plus its share, less what it paid
    in fees itself; and its share is 75% of all that was charged in its blocks, rounded
    up by less than one planck for each charge. The treasury, as an author, gets no less.
   */
  lemma {:induction false} AuthorIncome(l: Ledger, ps: seq<Payment>, author: AccountId)
    requires Conserved(l, 0) && Unsaturated(l) && author in l.funds
    ensures author in Run(l, ps).funds
    ensures var tally := RunTally(l, ps, author);
            var before, after := l.funds[author].Total(), Run(l, ps).funds[author].Total();
            && 75 * tally.charged <= 100 * tally.share <= 75 * tally.charged + 75 * tally.count
            && after + tally.paid >= before + tally.share
            && (author != TREASURY ==> after + tally.paid == before + tally.share)
    decreases |ps|
  {
    if ps != [] {
      var next := Charge(l, ps[0]);
      ChargeIncome(l, ps[0], author);
      ChargeConserves(l, ps[0]);
      AuthorIncome(next, ps[1..], author);
      if Charged(l, ps[0]) {
        assert ps[0].paid <= l.issuance by {
          WithdrawConserves(l, ps[0]);
        }
        AuthorSideShare(ps[0].paid);
      }
    }
  }

  // ---- Merging before rationing ----

  function Added(parts: seq<nat>): nat {
    if parts == [] then 0 else parts[0] + Added(parts[1..])
  }

  function RationedApart(parts: seq<nat>): nat {
    if parts == [] then 0 else TreasurySide(parts[0]) + RationedApart(parts[1..])
  }

  /** Merging n parts before rationing moves at most n-1 planck to the treasury side, none away. */
  lemma {:induction false} MergingGains(parts: seq<nat>)
    requires Added(parts) / 4 <= U128_MAX / 100
    ensures RationedApart(parts) <= TreasurySide(Added(parts))
    ensures parts != [] ==> TreasurySide(Added(parts)) <= RationedApart(parts) + |parts| - 1
  {
    if parts != [] {
      assert Added(parts[1..]) / 4 <= Added(parts) / 4;
      assert parts[0] / 4 <= Added(parts) / 4;
      MergingGains(parts[1..]);
      if |parts| == 1 {
        assert parts[1..] == [];
      }
    }
  }
}
