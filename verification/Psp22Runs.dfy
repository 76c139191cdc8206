/** What holds over every run of extension calls: any function ids, any bytes, any callers. */
module Psp22Runs {
  import opened Numbers
  import opened Currency
  import opened AssetLedger
  import opened AssetInvariants
  import opened Scale
  import opened Psp22

  function Run(c: Chain, calls: seq<Env>): Chain
    decreases |calls|
  {
    if calls == [] then c else Run(Deliver(c, calls[0]).chain, calls[1..])
  }

  // ---- Function ids ----

  /** The selector prefix of each function. */
  function Selector(f: FuncId): nat {
    match f
    case Metadata(Name) => 0x3d26
    case Metadata(Symbol) => 0x3420
    case Metadata(Decimals) => 0x7271
    case Query(TotalSupply) => 0x162d
    case Query(BalanceOfAccount) => 0x6568
    case Query(Allowance) => 0x4d47
    case Transfer => 0xdb20
    case TransferFrom => 0x54b3
    case Approve => 0xb20f
    case IncreaseAllowance => 0x96d6
    case DecreaseAllowance => 0xfecb
    case Burn => 0x9e55
    case Mint => 0x6bba
  }

  /** Every function has one id, no two share one, and all other ids are refused. */
  lemma SelectorsExact(funcId: nat, f: FuncId)
    ensures TryFrom(funcId) == Ok(f) <==> funcId == Selector(f)
  {
  }

  /** The functions that may change the ledger; all other calls, and all failing ones, leave it as it was. */
  predicate Writes(f: FuncId) {
    f in {Transfer, TransferFrom, Approve, IncreaseAllowance, DecreaseAllowance, Burn}
  }

  lemma OthersLeaveLedger(c: Chain, env: Env)
    ensures Deliver(c, env).chain != c ==>
              && Deliver(c, env).result.Ok?
              && exists f :: Writes(f) && env.funcId == Selector(f)
  {
    var f := TryFrom(env.funcId);
    if f.Ok? {
      SelectorsExact(env.funcId, f.value);
    }
  }

  // ---- The ledger invariant ----

  /** What any single call keeps. */
  ghost predicate Kept(c: Chain, c': Chain) {
    && Inv(c')
    && DepositsFollow(c, c')
    && (forall id :: SupplyOf(c', id) <= SupplyOf(c, id))
  }

  lemma SameFundsKeep(c: Chain, c': Chain)
    requires Inv(c') && c'.approvals == c.approvals && c'.funds == c.funds
    requires forall id :: SupplyOf(c', id) <= SupplyOf(c, id)
    ensures Kept(c, c')
  {
  }

  lemma GrantKeeps(c: Chain, key: ApprovalKey, value: nat)
    requires Inv(c) && Approved(c, key, value).Some?
    ensures Kept(c, Approved(c, key, value).value)
  {
    ApproveKeeps(c, key, value);
    ApproveEffect(c, key, value);
  }

  lemma LowerKeeps(c: Chain, key: ApprovalKey, value: nat)
    requires Inv(c) && Lowered(c, key, value).Some?
    ensures Kept(c, Lowered(c, key, value).value)
  {
    if value > 0 {
      if value >= c.approvals[key].amount {
        ReleaseEffect(c, key);
        ReleaseKeeps(c, key);
      } else {
        ReenteredKeeps(c, key, c.approvals[key].amount - value);
      }
    }
  }

  /** Every command keeps supplies backed and deposits matched, and adds no supply. */
  lemma CommandKeeps(c: Chain, cmd: Command, caller: AccountId, creatable: bool)
    requires Inv(c) && After(c, cmd, caller, creatable).Some?
    ensures Kept(c, After(c, cmd, caller, creatable).value)
  {
    match cmd
    case Send(id, to, value) =>
      TransferKeeps(c, id, caller, to, value, true, creatable);
      SameFundsKeep(c, After(c, cmd, caller, creatable).value);
    case Spend(key, to, value) =>
      TransferApprovedKeeps(c, key, to, value, creatable);
    case Grant(key, value) =>
      GrantKeeps(c, key, value);
    case Lower(key, value) =>
      LowerKeeps(c, key, value);
    case Destroy(id, from, value) =>
      BurnKeeps(c, id, caller, from, value);
      SameFundsKeep(c, After(c, cmd, caller, creatable).value);
    case _ =>
  }

  lemma DeliverKeeps(c: Chain, env: Env)
    requires Inv(c)
    ensures Kept(c, Deliver(c, env).chain)
  {
    var f := TryFrom(env.funcId);
    if f.Ok? && Interpret(f.value, env).Some? {
      var cmd := Interpret(f.value, env).value;
      if After(c, cmd, env.caller, env.creatable).Some? {
        CommandKeeps(c, cmd, env.caller, env.creatable);
      }
    }
  }

  lemma KeptTransitive(a: Chain, b: Chain, c: Chain)
    requires Kept(a, b) && Kept(b, c)
    ensures Kept(a, c)
  {
  }

  /**
    Over any run, on any network: each supply is the sum of its balances and never rises,
    each entry is paid for by a deposit of its owner, and the currency's totals do not move.
   */
  lemma {:induction false} RunKeeps(c: Chain, calls: seq<Env>)
    requires Inv(c)
    ensures Kept(c, Run(c, calls))
    decreases |calls|
  {
    if calls != [] {
      var next := Deliver(c, calls[0]).chain;
      DeliverKeeps(c, calls[0]);
      RunKeeps(next, calls[1..]);
      KeptTransitive(c, next, Run(c, calls));
    }
  }

  /** What a query answers decodes to the ledger's own number. */
  lemma AnswersDecode(c: Chain, env: Env, cmd: Command)
    requires Inv(c) && env.writable && Answers(cmd) && !cmd.Describe?
    ensures Execute(c, env, cmd).result.Ok? && Execute(c, env, cmd).chain == c
    ensures Decode(Execute(c, env, cmd).result.value) ==
            match cmd
            case AskSupply(id) => SupplyOf(c, id)
            case AskBalance(id, owner) => BalanceOf(c, id, owner)
            case AskAllowance(key) => AllowanceOf(c, key)
            case _ => 0
  {
    Pow256Of16();
    match cmd
    case AskSupply(id) =>
      DecodeEncode(SupplyOf(c, id), 16);
    case AskBalance(id, owner) =>
      if id in c.assets && owner in c.assets[id].holders {
        BackedBalance(c.assets[id], owner);
      }
      DecodeEncode(BalanceOf(c, id, owner), 16);
    case AskAllowance(key) =>
      DecodeEncode(AllowanceOf(c, key), 16);
  }

  /**
    A successful decrease by a positive value: the allowance falls by it, stopping at
    zero; entry and deposit stay exactly while some allowance remains; no other
    allowance, account or asset is touched. While some remains even the entry count is
    what it was, if and only if it counted the entry.
   */
  lemma DecreaseEffect(c: Chain, key: ApprovalKey, value: nat)
    requires Inv(c) && value > 0 && Lowered(c, key, value).Some?
    ensures var c' := Lowered(c, key, value).value;
            var left := SatSub(AllowanceOf(c, key), value);
            && AllowanceOf(c', key) == left
            && (key in c'.approvals <==> left > 0)
            && (left > 0 ==> c'.funds == c.funds
                             && (c'.assets == c.assets <==> 1 <= c.assets[key.asset].approvals <= U32_MAX))
            && (left == 0 ==> ReservedOf(c.funds, key.owner) == ReservedOf(c'.funds, key.owner) + APPROVAL_DEPOSIT
                              && FreeOf(c'.funds, key.owner) == FreeOf(c.funds, key.owner) + APPROVAL_DEPOSIT)
            && c'.assets.Keys == c.assets.Keys
            && c'.assets[key.asset].(approvals := 0) == c.assets[key.asset].(approvals := 0)
            && (forall i :: i in c.assets && i != key.asset ==> c'.assets[i] == c.assets[i])
            && (forall k :: k != key ==> (k in c'.approvals <==> k in c.approvals) && (k in c.approvals ==> c'.approvals[k] == c.approvals[k]))
            && (forall w :: w != key.owner ==> (w in c'.funds <==> w in c.funds) && (w in c.funds ==> c'.funds[w] == c.funds[w]))
  {
    EntriesAreBacked(c, key);
    var c' := Lowered(c, key, value).value;
    if value < c.approvals[key].amount {
      RecountedIff(c.assets[key.asset]);
      assert c'.assets[key.asset] == CountUp(CountDown(c.assets[key.asset]));
      if 1 <= c.assets[key.asset].approvals <= U32_MAX {
        assert c'.assets == c.assets;
      }
    }
  }

  // ---- Entry counts ----

  /** A new approval of an asset whose u32 entry count is full. */
  predicate Overfills(c: Chain, cmd: Command) {
    && cmd.Grant? && cmd.key !in c.approvals
    && cmd.key.asset in c.assets && c.assets[cmd.key.asset].approvals >= U32_MAX
  }

  lemma CommandCountsIff(c: Chain, cmd: Command, caller: AccountId, creatable: bool)
    requires Inv(c) && CountsAgree(c) && After(c, cmd, caller, creatable).Some?
    ensures CountsAgree(After(c, cmd, caller, creatable).value) <==> !Overfills(c, cmd)
  {
    match cmd
    case Send(id, to, value) =>
      TransferKeeps(c, id, caller, to, value, true, creatable);
    case Spend(key, to, value) =>
      TransferApprovedKeeps(c, key, to, value, creatable);
    case Grant(key, value) =>
      ApproveCountsIff(c, key, value);
    case Lower(key, value) =>
      if value > 0 {
        if value >= c.approvals[key].amount {
          ReleaseCounts(c, key);
        } else {
          ReenteredCounts(c, key, c.approvals[key].amount - value);
        }
      }
    case Destroy(id, from, value) =>
      BurnKeeps(c, id, caller, from, value);
    case _ =>
  }

  predicate CallOverfills(c: Chain, env: Env) {
    var f := TryFrom(env.funcId);
    && f.Ok? && Interpret(f.value, env).Some? && Deliver(c, env).result.Ok?
    && Overfills(c, Interpret(f.value, env).value)
  }

  /** Any call keeps the entry counts right, except exactly a new approval on a full count. */
  lemma DeliverCountsIff(c: Chain, env: Env)
    requires Inv(c) && CountsAgree(c)
    ensures CountsAgree(Deliver(c, env).chain) <==> !CallOverfills(c, env)
  {
    var f := TryFrom(env.funcId);
    if f.Ok? && Interpret(f.value, env).Some? && Deliver(c, env).result.Ok? {
      CommandCountsIff(c, Interpret(f.value, env).value, env.caller, env.creatable);
    }
  }

  /** With fewer than 2^32 LUNES held, no call meets a full count. */
  lemma FitNeverOverfills(c: Chain, env: Env)
    requires Inv(c) && CountsAgree(c) && CountsFit(c)
    ensures !CallOverfills(c, env)
  {
    if CallOverfills(c, env) {
      var cmd := Interpret(TryFrom(env.funcId).value, env).value;
      ApproveKeepsCounts(c, cmd.key, cmd.value);
      ApproveCountsIff(c, cmd.key, cmd.value);
      assert false;
    }
  }

  // ---- Who may do what ----

  lemma MoveLowersSource(c: Chain, id: AssetId, source: AccountId, dest: AccountId, amount: nat, keepAlive: bool,
                         creatable: bool, i: AssetId, w: AccountId)
    requires Inv(c) && Transferred(c, id, source, dest, amount, keepAlive, creatable).Some?
    ensures var c' := Transferred(c, id, source, dest, amount, keepAlive, creatable).value;
            BalanceOf(c', i, w) < BalanceOf(c, i, w) ==> i == id && w == source && amount > 0
  {
    if amount > 0 {
      MoveEffect(c.assets[id], source, dest, amount, keepAlive, creatable);
    }
  }

  /** Only a sender, an owner whose spender holds an allowance, or an admin's target loses balance. */
  lemma CommandLowers(c: Chain, cmd: Command, caller: AccountId, creatable: bool, id: AssetId, w: AccountId)
    requires Inv(c) && After(c, cmd, caller, creatable).Some?
    requires BalanceOf(After(c, cmd, caller, creatable).value, id, w) < BalanceOf(c, id, w)
    ensures || (cmd.Send? && w == caller)
            || (cmd.Spend? && cmd.key.asset == id && cmd.key.owner == w && AllowanceOf(c, cmd.key) > 0)
            || (cmd.Destroy? && id in c.assets && caller == c.assets[id].admin)
  {
    match cmd
    case Send(i, to, value) =>
      MoveLowersSource(c, i, caller, to, value, true, creatable, id, w);
    case Spend(key, to, value) =>
      MoveLowersSource(c, key.asset, key.owner, to, value, false, creatable, id, w);
    case Destroy(i, from, value) =>
      BurnKeeps(c, i, caller, from, value);
    case _ =>
  }

  /** The caller's place in what its call decodes to. */
  predicate IssuedBy(cmd: Command, caller: AccountId) {
    && (cmd.Spend? ==> cmd.key.spender == caller)
    && (cmd.Grant? ==> cmd.key.owner == caller)
    && (cmd.Lower? ==> cmd.key.owner == caller)
  }

  lemma InterpretIssues(f: FuncId, env: Env)
    requires Interpret(f, env).Some?
    ensures IssuedBy(Interpret(f, env).value, env.caller)
  {
  }

  lemma CommandAllowances(c: Chain, cmd: Command, caller: AccountId, creatable: bool, key: ApprovalKey)
    requires After(c, cmd, caller, creatable).Some? && IssuedBy(cmd, caller)
    requires AllowanceOf(c, key) <= U128_MAX
    ensures var c' := After(c, cmd, caller, creatable).value;
            && (AllowanceOf(c', key) > AllowanceOf(c, key) ==> caller == key.owner)
            && (AllowanceOf(c', key) < AllowanceOf(c, key) ==> caller == key.owner || caller == key.spender)
  {
  }

  lemma CommandKeepsAdmin(c: Chain, cmd: Command, caller: AccountId, creatable: bool, id: AssetId)
    requires After(c, cmd, caller, creatable).Some? && id in c.assets
    ensures var c' := After(c, cmd, caller, creatable).value;
            id in c'.assets && c'.assets[id].admin == c.assets[id].admin
  {
    match cmd
    case Send(i, to, value) =>
      assert value > 0 ==> Move(c.assets[i], caller, to, value, true, creatable).value.admin == c.assets[i].admin;
    case Spend(key, to, value) =>
      assert value > 0 ==> Move(c.assets[key.asset], key.owner, to, value, false, creatable).value.admin == c.assets[key.asset].admin;
    case _ =>
  }

  /**
    Whatever bytes a contract passes: a balance falls only by its holder's own call, by
    one the holder has approved, or by the asset's admin; an allowance rises only by its
    owner's call and falls only by its owner's or its spender's; the admin stays.
   */
  lemma CallAuthority(c: Chain, env: Env, id: AssetId, w: AccountId, key: ApprovalKey)
    requires Inv(c)
    ensures var c' := Deliver(c, env).chain;
            && (BalanceOf(c', id, w) < BalanceOf(c, id, w) ==>
                  || env.caller == w
                  || AllowanceOf(c, ApprovalKey(id, w, env.caller)) > 0
                  || (id in c.assets && env.caller == c.assets[id].admin))
            && (AllowanceOf(c', key) > AllowanceOf(c, key) ==> env.caller == key.owner)
            && (AllowanceOf(c', key) < AllowanceOf(c, key) ==> env.caller == key.owner || env.caller == key.spender)
            && (id in c.assets ==> id in c'.assets && c'.assets[id].admin == c.assets[id].admin)
  {
    var f := TryFrom(env.funcId);
    if f.Ok? && Interpret(f.value, env).Some? {
      var cmd := Interpret(f.value, env).value;
      if After(c, cmd, env.caller, env.creatable).Some? {
        var c' := After(c, cmd, env.caller, env.creatable).value;
        InterpretIssues(f.value, env);
        CommandAllowances(c, cmd, env.caller, env.creatable, key);
        if id in c.assets {
          CommandKeepsAdmin(c, cmd, env.caller, env.creatable, id);
        }
        if BalanceOf(c', id, w) < BalanceOf(c, id, w) {
          CommandLowers(c, cmd, env.caller, env.creatable, id, w);
        }
      }
    }
  }

  /**
    Over any run: who approved nobody, makes no call, and is left alone by the admin
    never loses any of an asset.
   */
  lemma {:induction false} UnaskedKeeps(c: Chain, calls: seq<Env>, id: AssetId, w: AccountId)
    requires Inv(c) && id in c.assets
    requires forall s :: AllowanceOf(c, ApprovalKey(id, w, s)) == 0
    requires forall env :: env in calls ==> env.caller != w && env.caller != c.assets[id].admin
    ensures BalanceOf(Run(c, calls), id, w) >= BalanceOf(c, id, w)
    decreases |calls|
  {
    if calls != [] {
      var next := Deliver(c, calls[0]).chain;
      DeliverKeeps(c, calls[0]);
      forall s
        ensures AllowanceOf(next, ApprovalKey(id, w, s)) == 0
      {
        CallAuthority(c, calls[0], id, w, ApprovalKey(id, w, s));
      }
      CallAuthority(c, calls[0], id, w, ApprovalKey(id, w, w));
      UnaskedKeeps(next, calls[1..], id, w);
    }
  }

  // ---- From bytes to commands ----

  /** The fields of an encoded transfer-from, whatever follows them in memory. */
  lemma EncodedTransferFrom(env: Env, id: nat, from: nat, to: nat, value: nat, rest: seq<byte>)
    requires FieldsFit(AssetFromToValue.Widths(), [id, from, to, value])
    requires env.memory == EncodeFields(AssetFromToValue.Widths(), [id, from, to, value]) + rest
    ensures Interpret(TransferFrom, env) == Some(Spend(ApprovalKey(id, from, env.caller), to, value))
  {
    InputRoundTrip(AssetFromToValue, [id, from, to, value], rest, []);
  }

  /** One layout serves the calls on an asset, an account and a value; the caller is the other party. */
  lemma EncodedCalls(env: Env, id: nat, account: nat, value: nat, rest: seq<byte>)
    requires FieldsFit(AssetAccountValue.Widths(), [id, account, value])
    requires env.memory == EncodeFields(AssetAccountValue.Widths(), [id, account, value]) + rest
    ensures Interpret(Transfer, env) == Some(Send(id, account, value))
    ensures Interpret(Approve, env) == Some(Grant(ApprovalKey(id, env.caller, account), value))
    ensures Interpret(IncreaseAllowance, env) == Some(Grant(ApprovalKey(id, env.caller, account), value))
    ensures Interpret(DecreaseAllowance, env) == Some(Lower(ApprovalKey(id, env.caller, account), value))
    ensures Interpret(Burn, env) == Some(Destroy(id, account, value))
  {
    InputRoundTrip(AssetAccountValue, [id, account, value], rest, []);
  }

  /** The same for the queries, which read as much of the three fields as they need. */
  lemma EncodedQuery(q: Query, env: Env, id: nat, owner: nat, spender: nat, rest: seq<byte>)
    requires FieldsFit(AssetOwnerSpender.Widths(), [id, owner, spender])
    requires env.memory == EncodeFields(AssetOwnerSpender.Widths(), [id, owner, spender]) + rest
    ensures Interpret(Query(q), env) ==
            match q
            case TotalSupply => Some(AskSupply(id))
            case BalanceOfAccount => Some(AskBalance(id, owner))
            case Allowance => Some(AskAllowance(ApprovalKey(id, owner, spender)))
  {
    InputRoundTrip(AssetOwnerSpender, [id, owner, spender], rest, []);
    LeadingFields(env.memory);
    match q
    case TotalSupply => assert ReadAs(LayoutOf(Query(q)), env.memory) == Some([id]);
    case BalanceOfAccount => assert ReadAs(LayoutOf(Query(q)), env.memory) == Some([id, owner]);
    case Allowance => assert ReadAs(LayoutOf(Query(q)), env.memory) == Some([id, owner, spender]);
  }

  /** A contract's transfer never empties the sender below the asset's minimum balance. */
  lemma SenderStays(c: Chain, id: AssetId, caller: AccountId, to: AccountId, value: nat, creatable: bool)
    requires Inv(c) && value > 0 && caller != to
    requires After(c, Send(id, to, value), caller, creatable).Some?
    ensures var c' := After(c, Send(id, to, value), caller, creatable).value;
            && BalanceOf(c', id, caller) == BalanceOf(c, id, caller) - value >= c.assets[id].minBalance
            && BalanceOf(c', id, to) == BalanceOf(c, id, to) + value
  {
    MoveEffect(c.assets[id], caller, to, value, true, creatable);
    PrepDebitFacts(c.assets[id], caller, value, true, false);
  }

  // ---- Allowance accounting ----

  /** What one call, or a run, did to one allowance. */
  datatype Flow = Flow(granted: nat, spent: nat, lowered: nat, lost: nat) {
    function Plus(other: Flow): Flow {
      Flow(granted + other.granted, spent + other.spent, lowered + other.lowered, lost + other.lost)
    }
  }

  const STILL: Flow := Flow(0, 0, 0, 0)

  /** A successful command's flow; `lost` is what a saturating approval drops. */
  function CommandFlow(c: Chain, cmd: Command, key: ApprovalKey): Flow {
    var allowance := AllowanceOf(c, key);
    if cmd.Grant? && cmd.key == key then STILL.(granted := cmd.value, lost := SatSub(allowance + cmd.value, U128_MAX))
    else if cmd.Spend? && cmd.key == key then STILL.(spent := cmd.value)
    else if cmd.Lower? && cmd.key == key then STILL.(lowered := Min(cmd.value, allowance))
    else STILL
  }

  function CallFlow(c: Chain, env: Env, key: ApprovalKey): Flow {
    var f := TryFrom(env.funcId);
    if f.Ok? && Interpret(f.value, env).Some? && Deliver(c, env).result.Ok?
    then CommandFlow(c, Interpret(f.value, env).value, key)
    else STILL
  }

  function RunFlow(c: Chain, calls: seq<Env>, key: ApprovalKey): Flow
    decreases |calls|
  {
    if calls == [] then STILL
    else CallFlow(c, calls[0], key).Plus(RunFlow(Deliver(c, calls[0]).chain, calls[1..], key))
  }

  ghost predicate Accounts(before: nat, after: nat, flow: Flow) {
    after + flow.spent + flow.lowered + flow.lost == before + flow.granted
  }

  lemma CommandAccounting(c: Chain, cmd: Command, caller: AccountId, creatable: bool, key: ApprovalKey)
    requires After(c, cmd, caller, creatable).Some? && AllowanceOf(c, key) <= U128_MAX
    ensures var c' := After(c, cmd, caller, creatable).value;
            && Accounts(AllowanceOf(c, key), AllowanceOf(c', key), CommandFlow(c, cmd, key))
            && AllowanceOf(c', key) <= U128_MAX
            && CommandFlow(c, cmd, key).lost == SatSub(AllowanceOf(c, key) + CommandFlow(c, cmd, key).granted, U128_MAX)
  {
    match cmd
    case Spend(k, to, value) =>
      SpendEffect(c, k, to, value, creatable);
    case Lower(k, value) =>
      assert k != key ==> AllowanceOf(After(c, cmd, caller, creatable).value, key) == AllowanceOf(c, key);
    case _ =>
  }

  lemma CallAccounting(c: Chain, env: Env, key: ApprovalKey)
    requires AllowanceOf(c, key) <= U128_MAX
    ensures var c' := Deliver(c, env).chain;
            && Accounts(AllowanceOf(c, key), AllowanceOf(c', key), CallFlow(c, env, key))
            && AllowanceOf(c', key) <= U128_MAX
            && CallFlow(c, env, key).lost == SatSub(AllowanceOf(c, key) + CallFlow(c, env, key).granted, U128_MAX)
  {
    var f := TryFrom(env.funcId);
    if f.Ok? && Interpret(f.value, env).Some? && Deliver(c, env).result.Ok? {
      CommandAccounting(c, Interpret(f.value, env).value, env.caller, env.creatable, key);
    }
  }

  /**
    Over any run, an allowance is what it was plus what Approve and IncreaseAllowance
    granted, less what was spent by successful transfers, lowered, or lost to saturation.
    So what a spender successfully asks for never exceeds what was granted.
   */
  lemma {:induction false} AllowanceAccounting(c: Chain, calls: seq<Env>, key: ApprovalKey)
    requires AllowanceOf(c, key) <= U128_MAX
    ensures Accounts(AllowanceOf(c, key), AllowanceOf(Run(c, calls), key), RunFlow(c, calls, key))
    ensures RunFlow(c, calls, key).spent <= AllowanceOf(c, key) + RunFlow(c, calls, key).granted
    decreases |calls|
  {
    if calls != [] {
      CallAccounting(c, calls[0], key);
      AllowanceAccounting(Deliver(c, calls[0]).chain, calls[1..], key);
    }
  }

  /** Nothing is lost as long as the grants of the run fit a u128 on top of the allowance. */
  lemma {:induction false} NothingLost(c: Chain, calls: seq<Env>, key: ApprovalKey)
    requires AllowanceOf(c, key) + RunFlow(c, calls, key).granted <= U128_MAX
    ensures RunFlow(c, calls, key).lost == 0
    decreases |calls|
  {
    if calls != [] {
      var next := Deliver(c, calls[0]).chain;
      var flow, rest := CallFlow(c, calls[0], key), RunFlow(next, calls[1..], key);
      assert RunFlow(c, calls, key) == flow.Plus(rest);
      CallAccounting(c, calls[0], key);
      NothingLost(next, calls[1..], key);
    }
  }
}
