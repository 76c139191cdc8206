/**
  `RestrictAssetMint`: the signed extension that refuses to mint an asset which already
  has supply. It is consulted when a transaction enters the pool and again just before
  the transaction is applied.
 */
module MintGate {
  import opened Numbers
  import opened Currency
  import opened AssetLedger
  import opened AssetInvariants
  import opened Psp22
  import opened Psp22Runs

  const USDT_ASSET_ID: AssetId := 2

  /** A signed extrinsic whose call is the asset pallet's mint. */
  datatype MintTx = MintTx(signer: AccountId, id: AssetId, beneficiary: AccountId, amount: nat)

  const CUSTOM_1: string := "InvalidTransaction::Custom(1)"

  function Validate(c: Chain, tx: MintTx): Result<()> {
    if tx.id != USDT_ASSET_ID && SupplyOf(c, tx.id) > 0 then Err(CUSTOM_1) else Ok(())
  }

  function PreDispatch(c: Chain, tx: MintTx): Result<()> {
    if tx.id != USDT_ASSET_ID && SupplyOf(c, tx.id) > 0 then Err(CUSTOM_1) else Ok(())
  }

  /** The pool and the ledger of a node. */
  datatype Node = Node(pool: seq<MintTx>, chain: Chain)

  /**
    What can happen: a mint is offered to the pool, the pool's mint at an index is put
    into a block, a mint arrives in somebody else's block, a new asset is created, or a
    contract calls the extension.
   */
  datatype Event =
    | Submit(tx: MintTx)
    | Include(index: nat, creatable: bool)
    | Import(tx: MintTx, creatable: bool)
    | Create(id: AssetId, signer: AccountId, admin: AccountId, minBalance: nat)
    | Contract(env: Env)

  /** A mint in a block: refused by the gate, failing in the pallet, or applied. */
  function Applied(c: Chain, tx: MintTx, creatable: bool): Chain {
    if PreDispatch(c, tx).Err? then c
    else
      var minted := Minted(c, tx.id, tx.signer, tx.beneficiary, tx.amount, creatable);
      if minted.None? then c else minted.value
  }

  function Step(n: Node, e: Event): Node {
    match e
    case Submit(tx) => if Validate(n.chain, tx).Ok? then n.(pool := n.pool + [tx]) else n
    case Include(i, creatable) =>
      if i < |n.pool| then Node(n.pool[..i] + n.pool[i + 1..], Applied(n.chain, n.pool[i], creatable)) else n
    case Import(tx, creatable) => n.(chain := Applied(n.chain, tx, creatable))
    case Create(id, signer, admin, minBalance) =>
      var created := Created(n.chain, id, signer, admin, minBalance);
      if created.None? then n else n.(chain := created.value)
    case Contract(env) => n.(chain := Deliver(n.chain, env).chain)
  }

  function Run(n: Node, es: seq<Event>): Node
    decreases |es|
  {
    if es == [] then n else Run(Step(n, es[0]), es[1..])
  }

  ghost predicate Sound(n: Node) {
    Inv(n.chain)
  }

  /** The mint an event puts into a block, if any. */
  function MintOf(n: Node, e: Event): Option<MintTx> {
    match e
    case Include(i, _) => if i < |n.pool| then Some(n.pool[i]) else None
    case Import(tx, _) => Some(tx)
    case _ => None
  }

  /** The event applied a mint of a positive amount of `id`. */
  predicate Mints(n: Node, e: Event, id: AssetId) {
    MintOf(n, e).Some? && MintOf(n, e).value.id == id && SupplyOf(Step(n, e).chain, id) > SupplyOf(n.chain, id)
  }

  lemma AppliedEffect(c: Chain, tx: MintTx, creatable: bool)
    requires Inv(c)
    ensures var c' := Applied(c, tx, creatable);
            && Inv(c') && c'.funds == c.funds && c'.approvals == c.approvals
            && (CountsAgree(c) ==> CountsAgree(c'))
            && (forall i :: i != tx.id ==> SupplyOf(c', i) == SupplyOf(c, i))
            && (SupplyOf(c', tx.id) == SupplyOf(c, tx.id)
                || (SupplyOf(c', tx.id) == SupplyOf(c, tx.id) + tx.amount
                    && (tx.id != USDT_ASSET_ID ==> SupplyOf(c, tx.id) == 0)))
  {
    if PreDispatch(c, tx).Ok? && Minted(c, tx.id, tx.signer, tx.beneficiary, tx.amount, creatable).Some? {
      MintKeeps(c, tx.id, tx.signer, tx.beneficiary, tx.amount, creatable);
    }
  }

  /**
    In one step, whatever it is, the supply of an asset other than id 2 rises only from
    zero, only by an included mint of that asset, and then by exactly its amount.
   */
  lemma StepSupply(n: Node, e: Event, id: AssetId)
    requires Sound(n)
    ensures Sound(Step(n, e))
    ensures SupplyOf(Step(n, e).chain, id) > SupplyOf(n.chain, id) ==>
              && MintOf(n, e).Some? && MintOf(n, e).value.id == id
              && SupplyOf(Step(n, e).chain, id) == SupplyOf(n.chain, id) + MintOf(n, e).value.amount
              && (id != USDT_ASSET_ID ==> SupplyOf(n.chain, id) == 0)
  {
    match e
    case Submit(tx) =>
    case Include(i, creatable) =>
      if i < |n.pool| {
        AppliedEffect(n.chain, n.pool[i], creatable);
      }
    case Import(tx, creatable) =>
      AppliedEffect(n.chain, tx, creatable);
    case Create(i, signer, admin, minBalance) =>
      if Created(n.chain, i, signer, admin, minBalance).Some? {
        CreateKeeps(n.chain, i, signer, admin, minBalance);
      }
    case Contract(env) =>
      DeliverKeeps(n.chain, env);
  }

  /** Every mint in the pool that was not there before was submitted while the gate was open for it. */
  lemma {:induction false} PoolAdmission(n: Node, es: seq<Event>, tx: MintTx)
    requires tx in Run(n, es).pool && tx !in n.pool
    ensures exists k :: 0 <= k < |es| && es[k] == Submit(tx)
                        && (tx.id == USDT_ASSET_ID || SupplyOf(Run(n, es[..k]).chain, tx.id) == 0)
    decreases |es|
  {
    var next := Step(n, es[0]);
    if tx in next.pool {
      assert es[0] == Submit(tx) && Run(n, es[..0]) == n;
    } else {
      PoolAdmission(next, es[1..], tx);
      var k :| 0 <= k < |es[1..]| && es[1..][k] == Submit(tx)
               && (tx.id == USDT_ASSET_ID || SupplyOf(Run(next, es[1..][..k]).chain, tx.id) == 0);
      assert es[..k + 1][1..] == es[1..][..k];
      assert es[k + 1] == Submit(tx) && Run(n, es[..k + 1]) == Run(next, es[1..][..k]);
    }
  }

  /** Positive mints of `id` applied since its supply was last zero. */
  function MintsSinceZero(n: Node, es: seq<Event>, id: AssetId, soFar: nat): nat
    decreases |es|
  {
    if es == [] then soFar
    else
      var next := Step(n, es[0]);
      var count := if Mints(n, es[0], id) then soFar + 1 else soFar;
      MintsSinceZero(next, es[1..], id, if SupplyOf(next.chain, id) == 0 then 0 else count)
  }

  /**
    However many mints were validated against the same empty supply, at every point of
    every run at most one positive mint has been applied since supply was last zero.
   */
  lemma {:induction false} AtMostOneMint(n: Node, es: seq<Event>, id: AssetId, soFar: nat)
    requires Sound(n) && id != USDT_ASSET_ID
    requires soFar <= 1 && (SupplyOf(n.chain, id) == 0 ==> soFar == 0)
    ensures MintsSinceZero(n, es, id, soFar) <= 1
    decreases |es|
  {
    if es != [] {
      StepSupply(n, es[0], id);
      var next := Step(n, es[0]);
      var count := if Mints(n, es[0], id) then soFar + 1 else soFar;
      AtMostOneMint(next, es[1..], id, if SupplyOf(next.chain, id) == 0 then 0 else count);
    }
  }

  ghost predicate MintsBounded(n: Node, es: seq<Event>, id: AssetId, most: nat) {
    && (forall i :: 0 <= i < |n.pool| && n.pool[i].id == id ==> n.pool[i].amount <= most)
    && (forall j :: 0 <= j < |es| && (es[j].Submit? || es[j].Import?) && es[j].tx.id == id ==> es[j].tx.amount <= most)
  }

  /**
    Mints never add up: if no single mint of the run exceeds `most`, no supply built up
    by the run does, and the ledger stays consistent throughout.
   */
  lemma {:induction false} SupplyWithinOneMint(n: Node, es: seq<Event>, id: AssetId, most: nat)
    requires Sound(n) && id != USDT_ASSET_ID && MintsBounded(n, es, id, most)
    ensures Sound(Run(n, es))
    ensures SupplyOf(Run(n, es).chain, id) <= Max(SupplyOf(n.chain, id), most)
    decreases |es|
  {
    if es != [] {
      StepSupply(n, es[0], id);
      var next := Step(n, es[0]);
      BoundedStep(n, es, id, most);
      SupplyWithinOneMint(next, es[1..], id, most);
    }
  }

  lemma BoundedStep(n: Node, es: seq<Event>, id: AssetId, most: nat)
    requires es != [] && MintsBounded(n, es, id, most)
    ensures MintsBounded(Step(n, es[0]), es[1..], id, most)
    ensures MintOf(n, es[0]).Some? && MintOf(n, es[0]).value.id == id ==> MintOf(n, es[0]).value.amount <= most
  {
  }

  lemma {:induction false} RunNext(n: Node, es: seq<Event>, k: nat)
    requires k < |es|
    ensures Run(n, es[..k + 1]) == Step(Run(n, es[..k]), es[k])
    decreases k
  {
    if k == 0 {
      assert es[..1][1..] == [] && es[..0] == [];
    } else {
      var next := Step(n, es[0]);
      RunNext(next, es[1..], k - 1);
      assert es[..k + 1][1..] == es[1..][..k] && es[..k][1..] == es[1..][..k - 1];
    }
  }

  lemma {:induction false} RunKeepsSound(n: Node, es: seq<Event>)
    requires Sound(n)
    ensures Sound(Run(n, es))
    decreases |es|
  {
    if es != [] {
      StepSupply(n, es[0], 0);
      RunKeepsSound(Step(n, es[0]), es[1..]);
    }
  }

  /**
    As long as an asset other than id 2 has supply, every mint of it that is put into a
    block, from this pool or another's, is refused and changes nothing, whatever happened
    since and however many were admitted; and the supply does not rise.
   */
  lemma {:induction false} RefusedUntilZero(n: Node, es: seq<Event>, id: AssetId)
    requires Sound(n) && id != USDT_ASSET_ID
    requires forall k :: 0 <= k <= |es| ==> SupplyOf(Run(n, es[..k]).chain, id) > 0
    ensures SupplyOf(Run(n, es).chain, id) <= SupplyOf(n.chain, id)
    ensures forall k :: 0 <= k < |es| && MintOf(Run(n, es[..k]), es[k]).Some? && MintOf(Run(n, es[..k]), es[k]).value.id == id
                        ==> Run(n, es[..k + 1]).chain == Run(n, es[..k]).chain
    decreases |es|
  {
    forall k | 0 <= k < |es| && MintOf(Run(n, es[..k]), es[k]).Some? && MintOf(Run(n, es[..k]), es[k]).value.id == id
      ensures Run(n, es[..k + 1]).chain == Run(n, es[..k]).chain
    {
      RunNext(n, es, k);
      assert SupplyOf(Run(n, es[..k]).chain, id) > 0;
    }
    if es != [] {
      var front := es[..|es| - 1];
      assert forall k :: 0 <= k <= |front| ==> front[..k] == es[..k];
      RefusedUntilZero(n, front, id);
      RunKeepsSound(n, front);
      RunNext(n, es, |front|);
      assert es[..|es|] == es && es[..|front|] == front;
      StepSupply(Run(n, front), es[|front|], id);
    }
  }

  // ---- Allowances ----

  /** Only contract calls move allowances. */
  function EventFlow(n: Node, e: Event, key: ApprovalKey): Flow {
    if e.Contract? then CallFlow(n.chain, e.env, key) else STILL
  }

  function RunFlow(n: Node, es: seq<Event>, key: ApprovalKey): Flow
    decreases |es|
  {
    if es == [] then STILL else EventFlow(n, es[0], key).Plus(RunFlow(Step(n, es[0]), es[1..], key))
  }

  lemma EventAccounting(n: Node, e: Event, key: ApprovalKey)
    requires Sound(n)
    ensures Sound(Step(n, e))
    ensures Accounts(AllowanceOf(n.chain, key), AllowanceOf(Step(n, e).chain, key), EventFlow(n, e, key))
  {
    StepSupply(n, e, 0);
    match e
    case Include(i, creatable) =>
      if i < |n.pool| {
        AppliedEffect(n.chain, n.pool[i], creatable);
      }
    case Import(tx, creatable) =>
      AppliedEffect(n.chain, tx, creatable);
    case Contract(env) =>
      CallAccounting(n.chain, env, key);
    case _ =>
  }

  /** The accounting of an allowance, with asset creation and mints between the calls. */
  lemma {:induction false} AllowanceAccounting(n: Node, es: seq<Event>, key: ApprovalKey)
    requires Sound(n)
    ensures Accounts(AllowanceOf(n.chain, key), AllowanceOf(Run(n, es).chain, key), RunFlow(n, es, key))
    ensures RunFlow(n, es, key).spent <= AllowanceOf(n.chain, key) + RunFlow(n, es, key).granted
    decreases |es|
  {
    if es != [] {
      EventAccounting(n, es[0], key);
      AllowanceAccounting(Step(n, es[0]), es[1..], key);
    }
  }
}
