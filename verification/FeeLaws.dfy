/**
  What the fee handler leaves, said in full: recorded issuance and every account after a
  settlement, for every author, alive, dead or absent, and every state of the treasury. The
  shares and limits are written as numbers, from the ledger before the call.
 */
module FeeLaws {
  import opened Numbers
  import opened Sums
  import opened Currency
  import opened FeeHandling
  import FeeRuns
  import Scale

  /** A quarter of `x`, exact unless 25 times `x` leaves the u128 range. */
  function Quarter(x: nat): nat {
    if 25 * x <= U128_MAX then x / 4 else U128_MAX / 100
  }

  lemma FirstByte(b: Scale.byte, rest: seq<Scale.byte>)
    ensures Scale.Decode([b] + rest) == b as nat + 256 * Scale.Decode(rest)
  {
    assert ([b] + rest)[1..] == rest;
  }

  lemma Word(a: Scale.byte, b: Scale.byte, c: Scale.byte, d: Scale.byte, rest: seq<Scale.byte>)
    ensures Scale.Decode([a, b, c, d] + rest)
            == a as nat + 0x100 * b as nat + 0x1_0000 * c as nat + 0x100_0000 * d as nat + 0x1_0000_0000 * Scale.Decode(rest)
  {
    assert [a, b, c, d] + rest == [a] + ([b] + ([c] + ([d] + rest)));
    FirstByte(d, rest);
    FirstByte(c, [d] + rest);
    FirstByte(b, [c] + ([d] + rest));
    FirstByte(a, [b] + ([c] + ([d] + rest)));
  }

  /** The treasury is the account whose 32 key bytes the runtime names. */
  lemma TreasuryKey()
    ensures Scale.Decode([0x2c, 0x11, 0xd2, 0xaf] + ([0xf8, 0x11, 0x47, 0xe5] + ([0x52, 0x25, 0x39, 0xc5]
                         + ([0x1c, 0x1c, 0xb8, 0x7b] + ([0xae, 0x94, 0xa0, 0x86] + ([0x5d, 0x21, 0x4f, 0x39]
                         + ([0x83, 0xf3, 0x55, 0x7a] + ([0x67, 0x32, 0xf2, 0x6a] + [])))))))) == TREASURY
  {
    var h := [0x67, 0x32, 0xf2, 0x6a] + [];
    var g := [0x83, 0xf3, 0x55, 0x7a] + h;
    var f := [0x5d, 0x21, 0x4f, 0x39] + g;
    var e := [0xae, 0x94, 0xa0, 0x86] + f;
    var d := [0x1c, 0x1c, 0xb8, 0x7b] + e;
    var c := [0x52, 0x25, 0x39, 0xc5] + d;
    var b := [0xf8, 0x11, 0x47, 0xe5] + c;
    Word(0x67, 0x32, 0xf2, 0x6a, []);
    Word(0x83, 0xf3, 0x55, 0x7a, h);
    Word(0x5d, 0x21, 0x4f, 0x39, g);
    Word(0xae, 0x94, 0xa0, 0x86, f);
    Word(0x1c, 0x1c, 0xb8, 0x7b, e);
    Word(0x52, 0x25, 0x39, 0xc5, d);
    Word(0xf8, 0x11, 0x47, 0xe5, c);
    Word(0x2c, 0x11, 0xd2, 0xaf, b);
  }

  /** A positive amount reaches a live account, or one that it opens with at least 500 planck. */
  predicate Arrives(alive: bool, v: int) {
    v > 0 && (alive || v >= 500)
  }

  // `a` is the author's share of an amount and `t` the rest of it, for treasury and burn.

  predicate AuthorPaid(l: Ledger, author: Option<AccountId>, a: int) {
    author.Some? && Arrives(author.value in l.funds, a)
  }

  /** What is compared with the threshold: a share that no author took has left issuance by then. */
  function LeftForTreasury(l: Ledger, author: Option<AccountId>, a: int): int {
    if AuthorPaid(l, author, a) then l.issuance else l.issuance - a
  }

  /** The treasury is due all of `t`, or half of it above 50,000,000 LUNES. */
  function TreasuryDue(l: Ledger, author: Option<AccountId>, a: int, t: nat): nat {
    if LeftForTreasury(l, author, a) > 5_000_000_000_000_000 then t / 2 else t
  }

  /** The author's share may have opened the treasury's account, when the treasury is the author. */
  predicate TreasuryPaid(l: Ledger, author: Option<AccountId>, a: int, t: nat) {
    Arrives(TREASURY in l.funds || (author == Some(TREASURY) && AuthorPaid(l, author, a)), TreasuryDue(l, author, a, t))
  }

  function AuthorGain(l: Ledger, author: Option<AccountId>, a: int, w: AccountId): int {
    if author == Some(w) && AuthorPaid(l, author, a) then a else 0
  }

  function TreasuryGain(l: Ledger, author: Option<AccountId>, a: int, t: nat, w: AccountId): int {
    if w == TREASURY && TreasuryPaid(l, author, a, t) then TreasuryDue(l, author, a, t) else 0
  }

  /** What leaves issuance: refused shares, and the burn above the threshold. */
  function Burned(l: Ledger, author: Option<AccountId>, a: int, t: nat): int {
    (if AuthorPaid(l, author, a) then 0 else a)
    + (if TreasuryPaid(l, author, a, t) then t - TreasuryDue(l, author, a, t) else t)
  }

  /** `w` has gained `gain` of free balance and nothing else; an absent account opens only by a gain. */
  predicate GainedAt(before: Funds, after: Funds, w: AccountId, gain: int) {
    && (w in after <==> w in before || gain > 0)
    && FreeOf(after, w) == FreeOf(before, w) + gain
    && ReservedOf(after, w) == ReservedOf(before, w)
  }

  /** The settlement of `a` for the author and `t` for treasury and burn. */
  ghost predicate Divided(l: Ledger, l': Ledger, author: Option<AccountId>, a: int, t: nat) {
    && l'.issuance == l.issuance - Burned(l, author, a, t)
    && forall w: AccountId :: GainedAt(l.funds, l'.funds, w, AuthorGain(l, author, a, w) + TreasuryGain(l, author, a, t, w))
  }

  /** The settlement of `x`: three quarters and the rounding for the author. */
  ghost predicate Settled(l: Ledger, l': Ledger, author: Option<AccountId>, x: nat) {
    Divided(l, l', author, x - Quarter(x), Quarter(x))
  }

  lemma QuarterExact(x: nat)
    ensures TreasurySide(x) == Quarter(x) <= x
  {
  }

  lemma CreditExact(l: Ledger, who: Option<AccountId>, v: nat, w: AccountId)
    requires v <= l.issuance
    ensures var arrives := who.Some? && Arrives(who.value in l.funds, v);
            && Credit(l, who, v).issuance == l.issuance - (if arrives then 0 else v)
            && GainedAt(l.funds, Credit(l, who, v).funds, w, if arrives && w == who.value then v else 0)
  {
  }

  /** Two gains, one after the other. */
  lemma GainsAdd(a: Funds, b: Funds, c: Funds, w: AccountId, first: nat, second: nat)
    requires GainedAt(a, b, w, first) && GainedAt(b, c, w, second)
    ensures GainedAt(a, c, w, first + second)
  {
  }

  lemma TreasuryExact(l: Ledger, t: nat, w: AccountId)
    requires t <= l.issuance
    ensures var due := if l.issuance > 5_000_000_000_000_000 then t / 2 else t;
            var arrives := Arrives(TREASURY in l.funds, due);
            && TreasuryAndBurn(l, t).issuance == l.issuance - (if arrives then t - due else t)
            && GainedAt(l.funds, TreasuryAndBurn(l, t).funds, w, if arrives && w == TREASURY then due else 0)
  {
    CreditExact(l, Some(TREASURY), if l.issuance > 5_000_000_000_000_000 then t / 2 else t, w);
  }

  lemma DividedExact(l: Ledger, author: Option<AccountId>, a: nat, t: nat)
    requires a + t <= l.issuance
    ensures Divided(l, TreasuryAndBurn(Credit(l, author, a), t), author, a, t)
  {
    var paid := Credit(l, author, a);
    CreditExact(l, author, a, TREASURY);
    TreasuryExact(paid, t, TREASURY);
    forall w: AccountId
      ensures GainedAt(l.funds, TreasuryAndBurn(paid, t).funds, w, AuthorGain(l, author, a, w) + TreasuryGain(l, author, a, t, w))
    {
      CreditExact(l, author, a, w);
      TreasuryExact(paid, t, w);
      GainsAdd(l.funds, paid.funds, TreasuryAndBurn(paid, t).funds, w, AuthorGain(l, author, a, w), TreasuryGain(l, author, a, t, w));
    }
  }

  /** The whole effect of a settlement, on any ledger that records what is settled. */
  lemma SettleExact(l: Ledger, author: Option<AccountId>, x: nat)
    requires x <= l.issuance
    ensures Settled(l, Settle(l, author, x), author, x)
  {
    QuarterExact(x);
    DividedExact(l, author, x - Quarter(x), Quarter(x));
  }

  /**
    The treasury's part alone, as numbers: above the threshold, with a dead treasury, half
    of the quarter opens its account if that reaches 500 planck, and else all of it is burnt.
   */
  lemma DeadTreasury(l: Ledger, author: AccountId, x: nat)
    requires x <= l.issuance && 25 * x <= U128_MAX
    requires author in l.funds && TREASURY !in l.funds && l.issuance > 5_000_000_000_000_000
    ensures var l' := Settle(l, Some(author), x);
            && (x / 4 / 2 >= 500 ==> l'.funds == l.funds[author := Account(l.funds[author].free + x - x / 4, l.funds[author].reserved)]
                                                        [TREASURY := Account(x / 4 / 2, 0)]
                                     && l'.issuance == l.issuance - (x / 4 - x / 4 / 2))
            && (x / 4 / 2 < 500 ==> TREASURY !in l'.funds && l'.issuance == l.issuance - x / 4)
  {
    SettleExact(l, Some(author), x);
    var l' := Settle(l, Some(author), x);
    if x / 4 / 2 >= 500 {
      var funds := l.funds[author := Account(l.funds[author].free + x - x / 4, l.funds[author].reserved)][TREASURY := Account(x / 4 / 2, 0)];
      forall w: AccountId
        ensures w in l'.funds <==> w in funds
        ensures w in funds ==> l'.funds[w] == funds[w]
      {
        assert GainedAt(l.funds, l'.funds, w, AuthorGain(l, Some(author), x - x / 4, w) + TreasuryGain(l, Some(author), x - x / 4, x / 4, w));
      }
      assert l'.funds == funds;
    }
  }

  /** A dead author's account opens exactly when its share reaches 500 planck; else the share is burnt. */
  lemma DeadAuthor(l: Ledger, author: AccountId, x: nat)
    requires x <= l.issuance && 25 * x <= U128_MAX
    requires author !in l.funds && author != TREASURY && TREASURY in l.funds
    ensures var l' := Settle(l, Some(author), x);
            && (author in l'.funds <==> x - x / 4 >= 500)
            && (x - x / 4 >= 500 ==> l'.funds[author] == Account(x - x / 4, 0))
            && (x - x / 4 < 500 && l.issuance <= 5_000_000_000_000_000 ==> l'.issuance == l.issuance - (x - x / 4))
  {
    SettleExact(l, Some(author), x);
    var l' := Settle(l, Some(author), x);
    assert GainedAt(l.funds, l'.funds, author, AuthorGain(l, Some(author), x - x / 4, author) + TreasuryGain(l, Some(author), x - x / 4, x / 4, author));
  }

  /** At the threshold of 50,000,000 LUNES nothing is burnt; one planck above, half of the quarter is. */
  lemma ThresholdExact(funds: Funds, author: AccountId, x: nat)
    requires author in funds && TREASURY in funds && x <= 5_000_000_000_000_000
    ensures Settle(Ledger(5_000_000_000_000_000, funds), Some(author), x).issuance == 5_000_000_000_000_000
    ensures Settle(Ledger(5_000_000_000_000_001, funds), Some(author), x).issuance
            == 5_000_000_000_000_001 - (x / 4 - x / 4 / 2)
  {
    SettleExact(Ledger(5_000_000_000_000_000, funds), Some(author), x);
    SettleExact(Ledger(5_000_000_000_000_001, funds), Some(author), x);
  }

  /** A payer is charged when the amount is positive, free, and leaves 500 planck in all. */
  predicate Pays(l: Ledger, p: FeeRuns.Payment) {
    p.paid > 0 && p.payer in l.funds && p.paid <= l.funds[p.payer].free
    && l.funds[p.payer].free + l.funds[p.payer].reserved - p.paid >= 500
  }

  function Taken(l: Ledger, p: FeeRuns.Payment): Ledger
    requires Pays(l, p)
  {
    l.(funds := l.funds[p.payer := Account(l.funds[p.payer].free - p.paid, l.funds[p.payer].reserved)])
  }

  lemma TakenIsWithdrawn(l: Ledger, p: FeeRuns.Payment)
    ensures FeeRuns.Charged(l, p) <==> Pays(l, p)
    ensures Pays(l, p) ==> FeeRuns.Withdrawn(l, p) == Taken(l, p)
  {
  }

  lemma PaidIsRecorded(l: Ledger, p: FeeRuns.Payment)
    requires Conserved(l, 0) && Pays(l, p)
    ensures p.paid <= Taken(l, p).issuance
  {
    HeldBoundsAccount(l.funds, p.payer);
  }

  /** The payer's free balance falls by what was paid, of which all is settled; or nothing happens. */
  lemma ChargeExact(l: Ledger, p: FeeRuns.Payment)
    requires Conserved(l, 0)
    ensures if Pays(l, p) then Settled(Taken(l, p), FeeRuns.Charge(l, p), p.author, p.paid)
            else FeeRuns.Charge(l, p) == l
  {
    TakenIsWithdrawn(l, p);
    if Pays(l, p) {
      PaidIsRecorded(l, p);
      SettleExact(Taken(l, p), p.author, p.paid);
    }
  }

  /**
    The first fee on the main network: nobody has endowed the treasury, and half of a
    quarter of a plain transfer's 200,055 planck opens its account.
   */
  lemma FirstFee(funds: Funds, payer: AccountId, author: AccountId)
    requires var l := Ledger(20_000_000_000_000_000, funds);
             Conserved(l, 0) && Pays(l, FeeRuns.Payment(payer, 200_055, 0, Some(author)))
    requires payer != author && author in funds && TREASURY !in funds
    ensures FeeRuns.Charge(Ledger(20_000_000_000_000_000, funds), FeeRuns.Payment(payer, 200_055, 0, Some(author)))
            == Ledger(20_000_000_000_000_000 - 25_007,
                      funds[payer := Account(funds[payer].free - 200_055, funds[payer].reserved)]
                           [author := Account(funds[author].free + 150_042, funds[author].reserved)]
                           [TREASURY := Account(25_006, 0)])
  {
    var l := Ledger(20_000_000_000_000_000, funds);
    var p := FeeRuns.Payment(payer, 200_055, 0, Some(author));
    DeadTreasury(FeeRuns.Withdrawn(l, p), author, 200_055);
  }

  // ---- The handler's items ----

  lemma {:induction false} WorthBounded(debts: Debts, items: seq<NegativeImbalance>)
    requires Distinct(items) && forall i :: i in items ==> i in debts
    ensures Worth(debts, items) <= Sum(debts)
  {
    if items != [] {
      SumRemove(debts, items[0]);
      WorthUnchanged(debts, debts - {items[0]}, items[1..]);
      WorthBounded(debts - {items[0]}, items[1..]);
    }
  }

  lemma {:induction false} WorthSplits(debts: Debts, items: seq<NegativeImbalance>, k: nat)
    requires k <= |items| && forall i :: i in items ==> i in debts
    ensures Worth(debts, items) == Worth(debts, items[..k]) + Worth(debts, items[k..])
  {
    if k > 0 {
      WorthSplits(debts, items[1..], k - 1);
      assert items[..k][1..] == items[1..][..k - 1] && items[k..] == items[1..][k - 1..];
    } else {
      assert items[0..] == items && items[..0] == [];
    }
  }

  lemma BurnedAtMost(l: Ledger, author: Option<AccountId>, a: nat, t: nat)
    ensures 0 <= Burned(l, author, a, t) <= a + t
  {
  }

  lemma SettleLeaves(l: Ledger, author: Option<AccountId>, x: nat)
    requires x <= l.issuance
    ensures Settle(l, author, x).issuance >= l.issuance - x
  {
    SettleExact(l, author, x);
    QuarterExact(x);
    BurnedAtMost(l, author, x - Quarter(x), Quarter(x));
  }

  /** The fee, and the tip if there is one. */
  function FeePlusTip(debts: Debts, items: seq<NegativeImbalance>): nat
    requires items != [] && forall i :: i in items ==> i in debts
  {
    debts[items[0]] + (if |items| == 1 then 0 else debts[items[1]])
  }

  lemma FirstItems(debts: Debts, items: seq<NegativeImbalance>)
    requires items != [] && forall i :: i in items ==> i in debts
    ensures Worth(debts, items[..FeeAndTip(items)]) == FeePlusTip(debts, items)
    ensures |items| <= 2 ==> Worth(debts, items[FeeAndTip(items)..]) == 0
  {
    if |items| == 1 {
      assert items[..1] == [items[0]];
    } else {
      assert items[..2][1..] == [items[1]];
      assert Worth(debts, [items[1]]) == debts[items[1]];
    }
  }

  lemma HandledSettles(l: Ledger, author: Option<AccountId>, debts: Debts, items: seq<NegativeImbalance>)
    requires items != [] && Distinct(items) && (forall i :: i in items ==> i in debts)
    requires Sum(debts) <= l.issuance
    ensures var l' := Handled(l, author, debts, items);
            && FeePlusTip(debts, items) <= l.issuance
            && l'.(issuance := l'.issuance + Worth(debts, items[FeeAndTip(items)..])) == Settle(l, author, FeePlusTip(debts, items))
  {
    WorthBounded(debts, items);
    WorthSplits(debts, items, FeeAndTip(items));
    FirstItems(debts, items);
    SettleLeaves(l, author, FeePlusTip(debts, items));
  }

  /**
    The handler for any number of items: none has no effect; fee and tip are settled as one
    amount, and what further items hold, which is zero without them, leaves issuance.
   */
  lemma HandledExact(l: Ledger, author: Option<AccountId>, debts: Debts, items: seq<NegativeImbalance>)
    requires Distinct(items) && (forall i :: i in items ==> i in debts)
    requires Sum(debts) <= l.issuance
    ensures items == [] ==> Handled(l, author, debts, items) == l
    ensures items != [] ==>
              var l' := Handled(l, author, debts, items);
              var rest := Worth(debts, items[if |items| == 1 then 1 else 2..]);
              && (|items| <= 2 ==> rest == 0)
              && Settled(l, l'.(issuance := l'.issuance + rest), author, FeePlusTip(debts, items))
  {
    if items != [] {
      FirstItems(debts, items);
      HandledSettles(l, author, debts, items);
      SettleExact(l, author, FeePlusTip(debts, items));
    }
  }
}
