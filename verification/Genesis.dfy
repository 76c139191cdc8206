/**
  `mainnet_genesis`: the issuance that is left after the endowed accounts goes to the
  root account. The resulting balances start every run.
 */
module Genesis {
  import opened Numbers
  import opened Currency
  import FeeRuns

  const MIN_VALIDATOR_BOND: nat := 50_000 * UNIT
  const TOTAL_INITIAL_ISSUANCE_LUNES: nat := 200_000_000 * UNIT
  const TOTAL_INITIAL_ISSUANCE_LUNES_TEST: nat := 10_000_000_000 * UNIT
  const INITIAL_COLLATOR_STAKING: nat := 50_000 * UNIT

  datatype Endowment = Endowment(who: AccountId, balance: nat)

  datatype Staker = Staker(stash: AccountId, controller: AccountId, bond: nat)

  function TotalIssuance(testnet: bool): nat {
    if testnet then TOTAL_INITIAL_ISSUANCE_LUNES_TEST else TOTAL_INITIAL_ISSUANCE_LUNES
  }

  function Added(list: seq<Endowment>): nat {
    if list == [] then 0 else Added(list[..|list| - 1]) + list[|list| - 1].balance
  }

  predicate Balances128(list: seq<Endowment>) {
    forall e :: e in list ==> e.balance <= U128_MAX
  }

  /** u128 subtraction in a release build wraps around. */
  function WrappingSub(a: nat, b: nat): nat {
    (a - b) % (U128_MAX + 1)
  }

  /** What is left of `total` modulo 2^128. */
  function Rest(total: nat, taken: nat): nat {
    (total - taken) % (U128_MAX + 1)
  }

  lemma RestStep(total: nat, taken: nat, next: nat)
    ensures WrappingSub(Rest(total, taken), next) == Rest(total, taken + next)
  {
    var q := (total - taken) / (U128_MAX + 1);
    assert total - taken == q * (U128_MAX + 1) + Rest(total, taken);
  }

  /**
    The genesis loop. Its contract is for every endowed list: root receives what is left
    of the network's issuance, modulo 2^128.
   */
  method MainnetGenesis(authorities: seq<AccountId>, root: AccountId, endowed: seq<Endowment>, testnet: bool)
    returns (balances: seq<Endowment>, stakers: seq<Staker>, council: seq<AccountId>)
    requires Balances128(endowed)
    ensures balances == endowed + [Endowment(root, Rest(TotalIssuance(testnet), Added(endowed)))]
    ensures |stakers| == |authorities|
    ensures forall i :: 0 <= i < |authorities| ==> stakers[i] == Staker(authorities[i], authorities[i], 5_000_000_000_000)
    ensures |council| == |balances| && forall i :: 0 <= i < |balances| ==> council[i] == balances[i].who
  {
    var issuance := TOTAL_INITIAL_ISSUANCE_LUNES;
    if testnet {
      issuance := TOTAL_INITIAL_ISSUANCE_LUNES_TEST;
    }
    for n := 0 to |endowed|
      invariant issuance == Rest(TotalIssuance(testnet), Added(endowed[..n]))
    {
      assert endowed[..n + 1][..n] == endowed[..n];
      RestStep(TotalIssuance(testnet), Added(endowed[..n]), endowed[n].balance);
      issuance := WrappingSub(issuance, endowed[n].balance);
    }
    assert endowed[..|endowed|] == endowed;
    stakers := seq(|authorities|, i requires 0 <= i < |authorities| => Staker(authorities[i], authorities[i], MIN_VALIDATOR_BOND));
    balances := endowed + [Endowment(root, issuance)];
    council := seq(|balances|, i requires 0 <= i < |balances| => balances[i].who);
  }

  function WithRoot(root: AccountId, endowed: seq<Endowment>, testnet: bool): seq<Endowment> {
    endowed + [Endowment(root, Rest(TotalIssuance(testnet), Added(endowed)))]
  }

  lemma {:induction false} PrefixBelow(list: seq<Endowment>, n: nat)
    requires n <= |list|
    ensures Added(list[..n]) <= Added(list)
    decreases |list|
  {
    if n < |list| {
      PrefixBelow(list[..|list| - 1], n);
      assert list[..|list| - 1][..n] == list[..n];
    } else {
      assert list[..n] == list;
    }
  }

  /**
    The final list sums to the network's issuance exactly when the endowments do not
    exceed it; and then no prefix of the loop underflows.
   */
  lemma GenesisConserves(root: AccountId, endowed: seq<Endowment>, testnet: bool)
    ensures Added(WithRoot(root, endowed, testnet)) == TotalIssuance(testnet)
            <==> Added(endowed) <= TotalIssuance(testnet)
    ensures Added(endowed) <= TotalIssuance(testnet)
            <==> forall n :: 0 <= n <= |endowed| ==> Added(endowed[..n]) <= TotalIssuance(testnet)
  {
    var all := WithRoot(root, endowed, testnet);
    assert all[..|all| - 1] == endowed;
    RestOf(TotalIssuance(testnet), Added(endowed));
    forall n | 0 <= n <= |endowed|
      ensures Added(endowed[..n]) <= Added(endowed)
    {
      PrefixBelow(endowed, n);
    }
    assert endowed[..|endowed|] == endowed;
  }

  lemma RestOf(total: nat, taken: nat)
    requires total <= U128_MAX
    ensures taken + Rest(total, taken) == total <==> taken <= total
  {
  }

  /**
    Root's part as a number: what the endowments leave of 200 million LUNES, on a test
    network of 10 billion; and when they exceed it by less than 2^128, that much less than 2^128.
   */
  lemma RootShare(root: AccountId, endowed: seq<Endowment>, testnet: bool)
    ensures var all := WithRoot(root, endowed, testnet);
            var total := if testnet then 1_000_000_000_000_000_000 else 20_000_000_000_000_000;
            var left := total - Added(endowed);
            && all[..|endowed|] == endowed && |all| == |endowed| + 1 && all[|endowed|].who == root
            && (0 <= left ==> all[|endowed|].balance == left)
            && (-0x1_0000_0000_0000_0000_0000_0000_0000_0000 <= left < 0 ==>
                  all[|endowed|].balance == left + 0x1_0000_0000_0000_0000_0000_0000_0000_0000)
  {
  }

  // ---- The ledger that genesis builds ----

  /** The balances pallet refuses a genesis with duplicates or balances below the existential deposit. */
  predicate Acceptable(list: seq<Endowment>) {
    && (forall i, j :: 0 <= i < j < |list| ==> list[i].who != list[j].who)
    && (forall i :: 0 <= i < |list| ==> EXISTENTIAL_DEPOSIT <= list[i].balance)
  }

  function FundsOf(list: seq<Endowment>): Funds {
    if list == [] then map[]
    else FundsOf(list[..|list| - 1])[list[|list| - 1].who := Account(list[|list| - 1].balance, 0)]
  }

  lemma {:induction false} FundedAreListed(list: seq<Endowment>, who: AccountId)
    requires who in FundsOf(list)
    ensures exists i :: 0 <= i < |list| && list[i].who == who
    decreases |list|
  {
    if list[|list| - 1].who != who {
      var front := list[..|list| - 1];
      FundedAreListed(front, who);
      var i :| 0 <= i < |front| && front[i].who == who;
      assert list[i].who == who;
    }
  }

  lemma {:induction false} GenesisFunds(list: seq<Endowment>)
    requires Acceptable(list)
    ensures Held(FundsOf(list)) == Added(list)
    ensures AllAlive(FundsOf(list))
    decreases |list|
  {
    if list == [] {
      assert Totals(FundsOf(list)) == map[];
    } else {
      var front, last := list[..|list| - 1], list[|list| - 1];
      GenesisFunds(front);
      assert last.who !in FundsOf(front) by {
        if last.who in FundsOf(front) {
          FundedAreListed(front, last.who);
          assert false;
        }
      }
      HeldUpdate(FundsOf(front), last.who, Account(last.balance, 0));
    }
  }

  ghost predicate Started(root: AccountId, endowed: seq<Endowment>, testnet: bool) {
    Added(endowed) <= TotalIssuance(testnet) && Acceptable(WithRoot(root, endowed, testnet))
  }

  /**
    From genesis on, over every run of fees: issuance is what accounts hold, never
    exceeds what the network started with, and no ration of fees ever saturates.
   */
  lemma FeesFromGenesis(root: AccountId, endowed: seq<Endowment>, testnet: bool, ps: seq<FeeRuns.Payment>)
    requires Started(root, endowed, testnet)
    ensures var l := FeeRuns.Run(Ledger(TotalIssuance(testnet), FundsOf(WithRoot(root, endowed, testnet))), ps);
            && Conserved(l, 0)
            && l.issuance <= TotalIssuance(testnet)
            && FeeRuns.Unsaturated(l)
  {
    GenesisConserves(root, endowed, testnet);
    GenesisFunds(WithRoot(root, endowed, testnet));
    FeeRuns.RunConserves(Ledger(TotalIssuance(testnet), FundsOf(WithRoot(root, endowed, testnet))), ps);
  }

  /** An authority endowed with the collator stake can bond what genesis stakes for it. */
  lemma StakersCovered(authority: AccountId, root: AccountId, endowed: seq<Endowment>, testnet: bool)
    requires Started(root, endowed, testnet) && Endowment(authority, INITIAL_COLLATOR_STAKING) in endowed
    ensures FreeOf(FundsOf(WithRoot(root, endowed, testnet)), authority) >= MIN_VALIDATOR_BOND
  {
    var list := WithRoot(root, endowed, testnet);
    var i :| 0 <= i < |endowed| && endowed[i] == Endowment(authority, INITIAL_COLLATOR_STAKING);
    assert list[i] == endowed[i];
    FundsAt(list, i);
  }

  lemma {:induction false} FundsAt(list: seq<Endowment>, i: nat)
    requires Acceptable(list) && i < |list|
    ensures list[i].who in FundsOf(list) && FundsOf(list)[list[i].who] == Account(list[i].balance, 0)
    decreases |list|
  {
    if i < |list| - 1 {
      FundsAt(list[..|list| - 1], i);
      assert list[i].who != list[|list| - 1].who;
    }
  }

  /** Each endowed account starts with its balance, root with the rest, nobody else with anything. */
  lemma StartingFunds(root: AccountId, endowed: seq<Endowment>, testnet: bool)
    requires Started(root, endowed, testnet)
    ensures var funds := FundsOf(WithRoot(root, endowed, testnet));
            var total := if testnet then 1_000_000_000_000_000_000 else 20_000_000_000_000_000;
            && (forall i :: 0 <= i < |endowed| ==> endowed[i].who in funds && funds[endowed[i].who] == Account(endowed[i].balance, 0))
            && root in funds && funds[root] == Account(total - Added(endowed), 0)
            && (forall w :: w in funds ==> w == root || exists i :: 0 <= i < |endowed| && endowed[i].who == w)
  {
    var list := WithRoot(root, endowed, testnet);
    forall i | 0 <= i < |endowed|
      ensures endowed[i].who in FundsOf(list) && FundsOf(list)[endowed[i].who] == Account(endowed[i].balance, 0)
    {
      FundsAt(list, i);
      assert list[i] == endowed[i];
    }
    FundsAt(list, |endowed|);
    RootShare(root, endowed, testnet);
    forall w | w in FundsOf(list)
      ensures w == root || exists i :: 0 <= i < |endowed| && endowed[i].who == w
    {
      FundedAreListed(list, w);
      var i :| 0 <= i < |list| && list[i].who == w;
      assert i < |endowed| ==> endowed[i].who == w;
    }
  }
}
