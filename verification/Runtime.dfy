/**
  Fees and tokens together: every interleaving of charged transactions, contract calls
  and gated mints, over one currency.
 */
module Runtime {
  import opened Currency
  import opened AssetLedger
  import opened AssetInvariants
  import FeeHandling
  import FeeRuns
  import Psp22Runs
  import MintGate
  import Genesis

  datatype State = State(issuance: nat, node: MintGate.Node) {
    function Money(): Ledger { Ledger(issuance, node.chain.funds) }
  }

  datatype Event = Fee(payment: FeeRuns.Payment) | Token(event: MintGate.Event)

  function Step(s: State, e: Event): State {
    match e
    case Fee(p) =>
      var l := FeeRuns.Charge(s.Money(), p);
      State(l.issuance, s.node.(chain := s.node.chain.(funds := l.funds)))
    case Token(t) => s.(node := MintGate.Step(s.node, t))
  }

  function Run(s: State, es: seq<Event>): State
    decreases |es|
  {
    if es == [] then s else Run(Step(s, es[0]), es[1..])
  }

  /** Money is conserved, and the token ledger is consistent with it. */
  ghost predicate Sound(s: State) {
    Conserved(s.Money(), 0) && MintGate.Sound(s.node)
  }

  /** Fees are taken from and paid into free balances only, so deposits stay in place. */
  lemma FeesLeaveReserves(l: Ledger, p: FeeRuns.Payment, w: AccountId)
    ensures ReservedOf(FeeRuns.Charge(l, p).funds, w) == ReservedOf(l.funds, w)
  {
    if FeeRuns.Charged(l, p) {
      var l1 := FeeRuns.Withdrawn(l, p);
      var paid := FeeHandling.Credit(l1, p.author, FeeHandling.AuthorSide(p.paid));
      assert ReservedOf(l1.funds, w) == ReservedOf(l.funds, w);
      assert ReservedOf(paid.funds, w) == ReservedOf(l1.funds, w);
    }
  }

  lemma FeeStep(s: State, p: FeeRuns.Payment)
    requires Sound(s)
    ensures Sound(Step(s, Fee(p)))
    ensures Step(s, Fee(p)).issuance <= s.issuance
    ensures Step(s, Fee(p)).Money() == FeeRuns.Charge(s.Money(), p)
    ensures Step(s, Fee(p)).node.(chain := s.node.chain) == s.node
    ensures Step(s, Fee(p)).node.chain.(funds := s.node.chain.funds) == s.node.chain
  {
    FeeRuns.ChargeConserves(s.Money(), p);
    var s' := Step(s, Fee(p));
    forall w
      ensures ReservedOf(s'.node.chain.funds, w) == ReservedOf(s.node.chain.funds, w)
    {
      FeesLeaveReserves(s.Money(), p, w);
    }
  }

  /** Token steps move money only between the free and the reserved part of an account. */
  lemma TokenStepMoney(n: MintGate.Node, e: MintGate.Event)
    requires MintGate.Sound(n)
    ensures SameTotals(n.chain.funds, MintGate.Step(n, e).chain.funds)
  {
    match e
    case Submit(tx) =>
    case Include(i, creatable) =>
    case Import(tx, creatable) =>
    case Create(id, signer, admin, minBalance) =>
      if Created(n.chain, id, signer, admin, minBalance).Some? {
        CreateKeeps(n.chain, id, signer, admin, minBalance);
      }
    case Contract(env) =>
      Psp22Runs.DeliverKeeps(n.chain, env);
  }

  lemma TokenStep(s: State, e: MintGate.Event)
    requires Sound(s)
    ensures Sound(Step(s, Token(e)))
  {
    MintGate.StepSupply(s.node, e, 0);
    TokenStepMoney(s.node, e);
    var funds, funds' := s.node.chain.funds, Step(s, Token(e)).node.chain.funds;
    forall w | w in funds'
      ensures EXISTENTIAL_DEPOSIT <= funds'[w].Total()
    {
      assert TotalOf(funds', w) == TotalOf(funds, w);
    }
  }

  /**
    Over every interleaving, issuance is exactly what accounts hold and never rises, every
    token supply is the sum of its balances, and every approval is paid for by a deposit.
   */
  lemma {:induction false} RunSound(s: State, es: seq<Event>)
    requires Sound(s)
    ensures Sound(Run(s, es))
    ensures Run(s, es).issuance <= s.issuance
    decreases |es|
  {
    if es != [] {
      match es[0] {
        case Fee(p) => FeeStep(s, p);
        case Token(t) => TokenStep(s, t);
      }
      RunSound(Step(s, es[0]), es[1..]);
    }
  }

  /** The state a network starts in: balances from genesis, no asset yet, an empty pool. */
  function Start(root: AccountId, endowed: seq<Genesis.Endowment>, testnet: bool): State {
    State(Genesis.TotalIssuance(testnet),
          MintGate.Node([], Chain(map[], map[], Genesis.FundsOf(Genesis.WithRoot(root, endowed, testnet)))))
  }

  lemma StartSound(root: AccountId, endowed: seq<Genesis.Endowment>, testnet: bool)
    requires Genesis.Started(root, endowed, testnet)
    ensures Sound(Start(root, endowed, testnet)) && CountsAgree(Start(root, endowed, testnet).node.chain)
    ensures Held(Start(root, endowed, testnet).node.chain.funds) == Genesis.TotalIssuance(testnet)
  {
    Genesis.FeesFromGenesis(root, endowed, testnet, []);
    var c := Start(root, endowed, testnet).node.chain;
    assert forall w :: EntriesBy(c.approvals, w) == {};
  }

  /** So all of this holds from genesis on, on the main network and on the test networks. */
  lemma NetworkSound(root: AccountId, endowed: seq<Genesis.Endowment>, testnet: bool, es: seq<Event>)
    requires Genesis.Started(root, endowed, testnet)
    ensures var after := Run(Start(root, endowed, testnet), es);
            && Sound(after)
            && after.issuance <= Genesis.TotalIssuance(testnet)
            && FeeRuns.Unsaturated(after.Money())
  {
    StartSound(root, endowed, testnet);
    RunSound(Start(root, endowed, testnet), es);
  }
}
