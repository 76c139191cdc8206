/**
  The chain extension that gives contracts the PSP22 token interface over the assets
  pallet: function ids, input decoding, and the functions that drive the ledger.
 */
module Psp22 {
  import opened Numbers
  import opened Currency
  import opened AssetLedger
  import opened AssetInvariants
  import opened Scale

  datatype Metadata = Name | Symbol | Decimals

  datatype Query = TotalSupply | BalanceOfAccount | Allowance

  datatype FuncId =
    | Metadata(metadata: Metadata)
    | Query(query: Query)
    | Transfer
    | TransferFrom
    | Approve
    | IncreaseAllowance
    | DecreaseAllowance
    | Burn
    | Mint

  function TryFrom(funcId: nat): Result<FuncId> {
    match funcId
    case 0x3d26 => Ok(Metadata(Name))
    case 0x3420 => Ok(Metadata(Symbol))
    case 0x7271 => Ok(Metadata(Decimals))
    case 0x162d => Ok(Query(TotalSupply))
    case 0x6568 => Ok(Query(BalanceOfAccount))
    case 0x4d47 => Ok(Query(Allowance))
    case 0xdb20 => Ok(Transfer)
    case 0x54b3 => Ok(TransferFrom)
    case 0xb20f => Ok(Approve)
    case 0x96d6 => Ok(IncreaseAllowance)
    case 0xfecb => Ok(DecreaseAllowance)
    case 0x9e55 => Ok(Burn)
    case 0x6bba => Ok(Mint)
    case _ => Err("Unimplemented func_id")
  }

  /** The encoded metadata of the asset that is asked for. */
  datatype Description = Description(name: seq<byte>, symbol: seq<byte>, decimals: seq<byte>)

  /**
    One call by a contract. `memory` starts at the input pointer. `creatable` and
    `writable` are what the system answers about a new consumer reference and about the
    output buffer; `described` is what the metadata storage holds.
   */
  datatype Env = Env(funcId: nat, caller: AccountId, memory: seq<byte>,
                     creatable: bool, writable: bool, described: Description)

  // ---- What each call means ----

  datatype Command =
    | Describe(what: Metadata, id: AssetId)
    | AskSupply(id: AssetId)
    | AskBalance(id: AssetId, owner: AccountId)
    | AskAllowance(key: ApprovalKey)
    | Send(id: AssetId, to: AccountId, value: nat)
    | Spend(key: ApprovalKey, to: AccountId, value: nat)
    | Grant(key: ApprovalKey, value: nat)
    | Lower(key: ApprovalKey, value: nat)
    | Destroy(id: AssetId, from: AccountId, value: nat)
    | Nothing

  function LayoutOf(f: FuncId): Layout {
    match f
    case Metadata(_) => AssetOnly
    case Query(TotalSupply) => AssetOnly
    case Query(BalanceOfAccount) => AssetOwner
    case Query(Allowance) => AssetOwnerSpender
    case TransferFrom => AssetFromToValue
    case _ => AssetAccountValue
  }

  function CommandOf(f: FuncId, caller: AccountId, x: seq<nat>): Command
    requires |x| == |LayoutOf(f).Widths()|
  {
    match f
    case Metadata(m) => Describe(m, x[0])
    case Query(TotalSupply) => AskSupply(x[0])
    case Query(BalanceOfAccount) => AskBalance(x[0], x[1])
    case Query(Allowance) => AskAllowance(ApprovalKey(x[0], x[1], x[2]))
    case Transfer => Send(x[0], x[1], x[2])
    case TransferFrom => Spend(ApprovalKey(x[0], x[1], caller), x[2], x[3])
    case Approve => Grant(ApprovalKey(x[0], caller, x[1]), x[2])
    case IncreaseAllowance => Grant(ApprovalKey(x[0], caller, x[1]), x[2])
    case DecreaseAllowance => Lower(ApprovalKey(x[0], caller, x[1]), x[2])
    case Burn => Destroy(x[0], x[1], x[2])
    case Mint => Nothing
  }

  /** The atomic decrease: down by `value` but not below zero, the entry gone at zero. */
  function Lowered(c: Chain, key: ApprovalKey, value: nat): Option<Chain> {
    if value == 0 then Some(c)
    else if !IsLive(c, key.asset) || key !in c.approvals then None
    else if value >= c.approvals[key].amount then Some(Released(c, key))
    else Some(Reentered(c, key, c.approvals[key].amount - value))
  }

  /** The ledger after a command; `None` when it fails. */
  function After(c: Chain, cmd: Command, caller: AccountId, creatable: bool): Option<Chain> {
    match cmd
    case Send(id, to, value) => Transferred(c, id, caller, to, value, true, creatable)
    case Spend(key, to, value) => TransferredApproved(c, key, to, value, creatable)
    case Grant(key, value) => Approved(c, key, value)
    case Lower(key, value) => Lowered(c, key, value)
    case Destroy(id, from, value) => Burnt(c, id, caller, from, value)
    case _ => Some(c)
  }

  predicate Answers(cmd: Command) {
    cmd.Describe? || cmd.AskSupply? || cmd.AskBalance? || cmd.AskAllowance?
  }

  function Answer(c: Chain, env: Env, cmd: Command): seq<byte> {
    match cmd
    case Describe(Name, _) => env.described.name
    case Describe(Symbol, _) => env.described.symbol
    case Describe(Decimals, _) => env.described.decimals
    case AskSupply(id) => Encode(SupplyOf(c, id), 16)
    case AskBalance(id, owner) => Encode(BalanceOf(c, id, owner), 16)
    case AskAllowance(key) => Encode(AllowanceOf(c, key), 16)
    case _ => []
  }

  function Failure(cmd: Command): string {
    match cmd
    case Describe(_, _) => "ChainExtension failed to call PSP22Metadata"
    case AskSupply(_) => "ChainExtension failed to call PSP22 query"
    case AskBalance(_, _) => "ChainExtension failed to call PSP22 query"
    case AskAllowance(_) => "ChainExtension failed to call PSP22 query"
    case Send(_, _, _) => "ChainExtension failed to call transfer"
    case Spend(_, _, _) => "ChainExtension failed to call transfer_from"
    case Grant(_, _) => "ChainExtension failed to call approve"
    case Lower(_, _) => "ChainExtension failed to call decrease_allowance"
    case Destroy(_, _, _) => "ChainExtension failed to call burn"
    case Nothing => ""
  }

  datatype Reply = Reply(chain: Chain, result: Result<seq<byte>>)

  /** Decoding fails only when memory ends before the input does. */
  function Interpret(f: FuncId, env: Env): Option<Command> {
    if f == Mint then Some(Nothing)
    else
      var read := ReadAs(LayoutOf(f), env.memory);
      if read.None? then None else Some(CommandOf(f, env.caller, read.value))
  }

  function Execute(c: Chain, env: Env, cmd: Command): Reply {
    var after := After(c, cmd, env.caller, env.creatable);
    if after.None? || (Answers(cmd) && !env.writable) then Reply(c, Err(Failure(cmd)))
    else Reply(after.value, Ok(Answer(c, env, cmd)))
  }

  function Perform(c: Chain, env: Env, f: FuncId): Reply {
    var cmd := Interpret(f, env);
    if cmd.None? then Reply(c, Err("OutOfBounds")) else Execute(c, env, cmd.value)
  }

  /** A whole call, as one atomic step of the ledger. */
  function Deliver(c: Chain, env: Env): Reply {
    var f := TryFrom(env.funcId);
    if f.Err? then Reply(c, Err(f.message)) else Perform(c, env, f.value)
  }

  // ---- The extension's functions ----

  /** The state every function starts from. */
  ghost predicate Consistent(ledger: Assets)
    reads ledger, ledger.currency
  {
    ledger.currency.Valid() && Inv(ledger.State())
  }

  /** `env.write(...)` of an answer */
  method Write(env: Env, bytes: seq<byte>, failure: string) returns (r: Result<seq<byte>>)
    ensures r == if env.writable then Ok(bytes) else Err(failure)
  {
    if env.writable {
      return Ok(bytes);
    }
    return Err(failure);
  }

  method CallMetadata(env: Env, f: Metadata) returns (r: Result<seq<byte>>)
    ensures forall c :: Perform(c, env, Metadata(f)) == Reply(c, r)
  {
    var input := ReadAs(AssetOnly, env.memory);
    if input.None? {
      return Err("OutOfBounds");
    }
    var result;
    match f {
      case Name => result := env.described.name;
      case Symbol => result := env.described.symbol;
      case Decimals => result := env.described.decimals;
    }
    r := Write(env, result, "ChainExtension failed to call PSP22Metadata");
  }

  method CallQuery(ledger: Assets, env: Env, f: Query) returns (r: Result<seq<byte>>)
    ensures Perform(ledger.State(), env, Query(f)) == Reply(ledger.State(), r)
  {
    var result;
    match f {
      case TotalSupply =>
        var input := ReadAs(AssetOnly, env.memory);
        if input.None? { return Err("OutOfBounds"); }
        result := SupplyOf(ledger.State(), input.value[0]);
      case BalanceOfAccount =>
        var input := ReadAs(AssetOwner, env.memory);
        if input.None? { return Err("OutOfBounds"); }
        result := BalanceOf(ledger.State(), input.value[0], input.value[1]);
      case Allowance =>
        var input := ReadAs(AssetOwnerSpender, env.memory);
        if input.None? { return Err("OutOfBounds"); }
        result := AllowanceOf(ledger.State(), ApprovalKey(input.value[0], input.value[1], input.value[2]));
    }
    r := Write(env, Encode(result, 16), "ChainExtension failed to call PSP22 query");
  }

  method CallTransfer(ledger: Assets, env: Env) returns (r: Result<seq<byte>>)
    modifies ledger`assets
    ensures Perform(old(ledger.State()), env, Transfer) == Reply(ledger.State(), r)
  {
    var input := ReadAs(AssetAccountValue, env.memory);
    if input.None? {
      return Err("OutOfBounds");
    }
    var sender := env.caller;
    var ok := ledger.Transfer(input.value[0], sender, input.value[1], input.value[2], true, env.creatable);
    return if ok then Ok([]) else Err("ChainExtension failed to call transfer");
  }

  method CallTransferFrom(ledger: Assets, env: Env) returns (r: Result<seq<byte>>)
    requires ledger.currency.Valid()
    modifies ledger, ledger.currency`funds
    ensures ledger.currency.Valid()
    ensures Perform(old(ledger.State()), env, TransferFrom) == Reply(ledger.State(), r)
  {
    var input := ReadAs(AssetFromToValue, env.memory);
    if input.None? {
      return Err("OutOfBounds");
    }
    var spender := env.caller;
    var key := ApprovalKey(input.value[0], input.value[1], spender);
    var ok := ledger.TransferApproved(key, input.value[2], input.value[3], env.creatable);
    return if ok then Ok([]) else Err("ChainExtension failed to call transfer_from");
  }

  /** Approving adds to what was approved before, so increasing is the same call. */
  lemma IncreaseIsApprove(c: Chain, env: Env)
    ensures Perform(c, env, IncreaseAllowance) == Perform(c, env, Approve)
  {
  }

  method CallApprove(ledger: Assets, env: Env) returns (r: Result<seq<byte>>)
    requires ledger.currency.Valid()
    modifies ledger, ledger.currency`funds
    ensures ledger.currency.Valid()
    ensures Perform(old(ledger.State()), env, Approve) == Reply(ledger.State(), r)
  {
    var input := ReadAs(AssetAccountValue, env.memory);
    if input.None? {
      return Err("OutOfBounds");
    }
    var owner := env.caller;
    var key := ApprovalKey(input.value[0], owner, input.value[1]);
    assert Interpret(Approve, env) == Some(Grant(key, input.value[2]));
    var ok := ledger.Approve(key, input.value[2]);
    return if ok then Ok([]) else Err("ChainExtension failed to call approve");
  }

  method CallDecreaseAllowance(ledger: Assets, env: Env) returns (r: Result<seq<byte>>)
    requires Consistent(ledger)
    modifies ledger, ledger.currency`funds
    ensures ledger.currency.Valid()
    ensures Perform(old(ledger.State()), env, DecreaseAllowance) == Reply(ledger.State(), r)
  {
    var input := ReadAs(AssetAccountValue, env.memory);
    if input.None? {
      return Err("OutOfBounds");
    }
    var owner := env.caller;
    var key := ApprovalKey(input.value[0], owner, input.value[1]);
    assert Interpret(DecreaseAllowance, env) == Some(Lower(key, input.value[2]));
    var ok := Decrease(ledger, key, input.value[2]);
    return if ok then Ok([]) else Err("ChainExtension failed to call decrease_allowance");
  }

  /**
    Read the allowance, cancel it, reduce, approve what is left: in effect one atomic
    decrease. The second approval cannot fail once the cancellation has succeeded.
   */
  method Decrease(ledger: Assets, key: ApprovalKey, value: nat) returns (ok: bool)
    requires Consistent(ledger)
    modifies ledger, ledger.currency`funds
    ensures ledger.currency.Valid()
    ensures var r := Lowered(old(ledger.State()), key, value);
            ok == r.Some? && ledger.State() == if ok then r.value else old(ledger.State())
  {
    if value == 0 {
      return true;
    }
    var allowance := AllowanceOf(ledger.State(), key);
    ghost var before := ledger.State();
    var cancelled := ledger.Cancel(key);
    if !cancelled {
      return false;
    }
    allowance := SatSub(allowance, value);
    if allowance == 0 {
      return true;
    }
    EntriesAreBacked(before, key);
    CancelThenApprove(before, key, allowance);
    ok := ledger.Approve(key, allowance);
  }

  method CallBurn(ledger: Assets, env: Env) returns (r: Result<seq<byte>>)
    modifies ledger`assets
    ensures Perform(old(ledger.State()), env, Burn) == Reply(ledger.State(), r)
  {
    var input := ReadAs(AssetAccountValue, env.memory);
    if input.None? {
      return Err("OutOfBounds");
    }
    var ok := ledger.Burn(input.value[0], env.caller, input.value[1], input.value[2]);
    return if ok then Ok([]) else Err("ChainExtension failed to call burn");
  }

  /** The dispatcher. Minting from a contract is disabled: it succeeds and does nothing. */
  method Call(ledger: Assets, env: Env) returns (r: Result<seq<byte>>)
    requires Consistent(ledger)
    modifies ledger, ledger.currency`funds
    ensures ledger.currency.Valid()
    ensures Deliver(old(ledger.State()), env) == Reply(ledger.State(), r)
  {
    var funcId := TryFrom(env.funcId);
    if funcId.Err? {
      return Err(funcId.message);
    }
    match funcId.value {
      case Metadata(f) => r := CallMetadata(env, f);
      case Query(f) => r := CallQuery(ledger, env, f);
      case Transfer => r := CallTransfer(ledger, env);
      case TransferFrom => r := CallTransferFrom(ledger, env);
      case Approve => r := CallApprove(ledger, env);
      case IncreaseAllowance => IncreaseIsApprove(ledger.State(), env); r := CallApprove(ledger, env);
      case DecreaseAllowance => r := CallDecreaseAllowance(ledger, env);
      case Burn => r := CallBurn(ledger, env);
      case Mint => r := Ok([]);
    }
  }
}
