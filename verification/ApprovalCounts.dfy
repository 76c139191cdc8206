/**
  The u32 entry count that each asset carries, over runs of the whole runtime: when it
  stays right, why it does on the main network, and a run of a test network on which it
  does not.
 */
module ApprovalCounts {
  import opened Numbers
  import opened Currency
  import opened AssetLedger
  import opened AssetInvariants
  import opened Scale
  import opened Runtime
  import Genesis
  import MintGate
  import Psp22
  import Psp22Runs

  /** The event is a contract call that approves a new spender of an asset whose count is full. */
  predicate Overfills(s: State, e: Event) {
    e.Token? && e.event.Contract? && Psp22Runs.CallOverfills(s.node.chain, e.event.env)
  }

  lemma StepCountsIff(s: State, e: Event)
    requires Sound(s) && CountsAgree(s.node.chain)
    ensures CountsAgree(Step(s, e).node.chain) <==> !Overfills(s, e)
  {
    var c := s.node.chain;
    match e
    case Fee(p) =>
    case Token(Submit(tx)) =>
    case Token(Include(i, creatable)) =>
      if i < |s.node.pool| {
        MintGate.AppliedEffect(c, s.node.pool[i], creatable);
      }
    case Token(Import(tx, creatable)) =>
      MintGate.AppliedEffect(c, tx, creatable);
    case Token(Create(id, signer, admin, minBalance)) =>
      if Created(c, id, signer, admin, minBalance).Some? {
        CreateKeeps(c, id, signer, admin, minBalance);
      }
    case Token(Contract(env)) =>
      Psp22Runs.DeliverCountsIff(c, env);
  }

  ghost predicate AgreeThroughout(s: State, es: seq<Event>)
    decreases |es|
  {
    CountsAgree(s.node.chain) && (es != [] ==> AgreeThroughout(Step(s, es[0]), es[1..]))
  }

  predicate NeverOverfills(s: State, es: seq<Event>)
    decreases |es|
  {
    es != [] ==> !Overfills(s, es[0]) && NeverOverfills(Step(s, es[0]), es[1..])
  }

  lemma StepSound(s: State, e: Event)
    requires Sound(s)
    ensures Sound(Step(s, e)) && Step(s, e).issuance <= s.issuance
  {
    match e
    case Fee(p) => FeeStep(s, p);
    case Token(t) => TokenStep(s, t);
  }

  /** Over any run the counts are right all along if and only if no new approval meets a full count. */
  lemma {:induction false} RunCountsIff(s: State, es: seq<Event>)
    requires Sound(s) && CountsAgree(s.node.chain)
    ensures AgreeThroughout(s, es) <==> NeverOverfills(s, es)
    decreases |es|
  {
    if es != [] {
      StepCountsIff(s, es[0]);
      StepSound(s, es[0]);
      if !Overfills(s, es[0]) {
        RunCountsIff(Step(s, es[0]), es[1..]);
      }
    }
  }

  /** With fewer than 2^32 LUNES in all, deposits run out before any count is full. */
  lemma {:induction false} SmallSupplyNeverOverfills(s: State, es: seq<Event>)
    requires Sound(s) && CountsAgree(s.node.chain)
    requires s.issuance < APPROVAL_DEPOSIT * (U32_MAX + 1)
    ensures NeverOverfills(s, es) && AgreeThroughout(s, es)
    decreases |es|
  {
    if es != [] {
      var e := es[0];
      if e.Token? && e.event.Contract? {
        Psp22Runs.FitNeverOverfills(s.node.chain, e.event.env);
      }
      StepCountsIff(s, e);
      StepSound(s, e);
      SmallSupplyNeverOverfills(Step(s, e), es[1..]);
    }
  }

  /** The main network issues 200 million LUNES: its counts are right in every run. */
  lemma MainnetCountsAgree(root: AccountId, endowed: seq<Genesis.Endowment>, es: seq<Event>)
    requires Genesis.Started(root, endowed, false)
    ensures AgreeThroughout(Start(root, endowed, false), es)
  {
    StartSound(root, endowed, false);
    SmallSupplyNeverOverfills(Start(root, endowed, false), es);
  }

  // ---- A test network's supply is enough to fill a count ----

  const FULL: nat := U32_MAX + 1

  /** `n` approvals by `owner` of asset 1, to spenders below `n`, with money left for the rest. */
  ghost predicate Reached(c: Chain, owner: AccountId, n: nat) {
    && n <= FULL
    && IsLive(c, 1)
    && c.assets[1].approvals == Min(n, U32_MAX)
    && Count(c.approvals, 1) == n
    && (forall j: nat :: n <= j ==> ApprovalKey(1, owner, j) !in c.approvals)
    && FreeOf(c.funds, owner) >= APPROVAL_DEPOSIT * (FULL - n)
  }

  /** The owner's contract call approving zero of asset 1 to `spender`. */
  function ApproveCall(owner: AccountId, spender: AccountId): Psp22.Env {
    Psp22.Env(0xb20f, owner, EncodeFields(AssetAccountValue.Widths(), [1, spender, 0]), false, false,
              Psp22.Description([], [], []))
  }

  lemma {:induction false} Pow256From4(width: nat)
    requires width >= 4
    ensures Pow256(width) >= FULL
    decreases width
  {
    if width == 4 {
      assert Pow256(4) == FULL;
    } else {
      Pow256From4(width - 1);
    }
  }

  lemma ApproveCallMeans(owner: AccountId, spender: AccountId)
    requires spender < FULL
    ensures var env := ApproveCall(owner, spender);
            Psp22.TryFrom(env.funcId) == Ok(Psp22.Approve)
            && Psp22.Interpret(Psp22.Approve, env) == Some(Psp22.Grant(ApprovalKey(1, owner, spender), 0))
  {
    var env := ApproveCall(owner, spender);
    Pow256From4(4);
    Pow256From4(32);
    Pow256From4(16);
    assert env.memory == EncodeFields(AssetAccountValue.Widths(), [1, spender, 0]) + [];
    Psp22Runs.EncodedCalls(env, 1, spender, 0, []);
  }

  lemma ApproveReaches(c: Chain, owner: AccountId, n: nat)
    requires Reached(c, owner, n) && n < FULL
    ensures Reached(Psp22.Deliver(c, ApproveCall(owner, n)).chain, owner, n + 1)
  {
    var key := ApprovalKey(1, owner, n);
    ApproveCallMeans(owner, n);
    var c' := Psp22.Deliver(c, ApproveCall(owner, n)).chain;
    assert Approved(c, key, 0) == Some(c');
    EntriesAfterAdd(c.approvals, key, c'.approvals[key]);
  }

  lemma ApproveStep(s: State, owner: AccountId, n: nat)
    requires Reached(s.node.chain, owner, n) && n < FULL
    ensures Reached(Step(s, Token(MintGate.Contract(ApproveCall(owner, n)))).node.chain, owner, n + 1)
  {
    ApproveReaches(s.node.chain, owner, n);
    assert Step(s, Token(MintGate.Contract(ApproveCall(owner, n)))).node.chain
           == Psp22.Deliver(s.node.chain, ApproveCall(owner, n)).chain;
  }

  lemma RunStep(s: State, e: Event, rest: seq<Event>)
    ensures Run(s, [e] + rest) == Run(Step(s, e), rest)
  {
    assert ([e] + rest)[1..] == rest;
  }

  lemma {:induction false} Fill(s: State, owner: AccountId, n: nat) returns (es: seq<Event>)
    requires Reached(s.node.chain, owner, n)
    ensures Reached(Run(s, es).node.chain, owner, FULL)
    decreases FULL - n
  {
    if n == FULL {
      es := [];
    } else {
      var e := Token(MintGate.Contract(ApproveCall(owner, n)));
      ApproveStep(s, owner, n);
      var rest := Fill(Step(s, e), owner, n + 1);
      RunStep(s, e, rest);
      es := [e] + rest;
    }
  }

  lemma FirstAssetReached(c: Chain, owner: AccountId)
    requires c.assets == map[] && c.approvals == map[]
    requires FreeOf(c.funds, owner) >= ASSET_DEPOSIT + APPROVAL_DEPOSIT * FULL
    ensures Created(c, 1, owner, owner, 1).Some?
    ensures Reached(Created(c, 1, owner, owner, 1).value, owner, 0)
  {
    assert EntriesOf(c.approvals, 1) == {};
  }

  /**
    A test network's root can afford it: when the endowments leave it 2^32 + 100 LUNES, a
    run from genesis creates one asset and approves so many spenders that its count is wrong.
   */
  lemma TestnetCountGoesWrong(root: AccountId, endowed: seq<Genesis.Endowment>)
    requires Genesis.Started(root, endowed, true)
    requires Genesis.Added(endowed) + ASSET_DEPOSIT + APPROVAL_DEPOSIT * FULL <= Genesis.TOTAL_INITIAL_ISSUANCE_LUNES_TEST
    ensures exists es :: !CountsAgree(Run(Start(root, endowed, true), es).node.chain)
  {
    var start := Start(root, endowed, true);
    var list := Genesis.WithRoot(root, endowed, true);
    Genesis.FundsAt(list, |endowed|);
    FirstAssetReached(start.node.chain, root);
    var e := Token(MintGate.Create(1, root, root, 1));
    var rest := Fill(Step(start, e), root, 0);
    var es := [e] + rest;
    assert es[1..] == rest;
    assert !CountsAgree(Run(start, es).node.chain);
  }

  /** The staging test network endows two authorities with the collator stake: its root can. */
  lemma StagingTestnetCountGoesWrong(root: AccountId, first: AccountId, second: AccountId)
    requires root != first && root != second && first != second
    ensures var endowed := [Genesis.Endowment(first, Genesis.INITIAL_COLLATOR_STAKING),
                            Genesis.Endowment(second, Genesis.INITIAL_COLLATOR_STAKING)];
            && Genesis.Started(root, endowed, true)
            && exists es :: !CountsAgree(Run(Start(root, endowed, true), es).node.chain)
  {
    var stake := Genesis.INITIAL_COLLATOR_STAKING;
    var endowed := [Genesis.Endowment(first, stake), Genesis.Endowment(second, stake)];
    assert endowed[..1] == [Genesis.Endowment(first, stake)] && endowed[..1][..0] == [];
    assert Genesis.Added(endowed[..1]) == stake;
    assert Genesis.Added(endowed) == 2 * stake;
    TestnetCountGoesWrong(root, endowed);
  }
}
