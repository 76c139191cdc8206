/**
  What a contract gets for each function id, from the bytes it passes to the reply and the
  ledger it leaves: one law for each of the thirteen ids, and one for everything else.
 */
module Psp22Laws {
  import opened Numbers
  import opened AssetLedger
  import opened AssetInvariants
  import opened AssetLaws
  import opened Scale
  import opened Psp22
  import opened Psp22Runs

  const DONE: Result<seq<byte>> := Ok([])

  /** A call that answers nothing replies with the ledger after its command, or fails without effect. */
  lemma Replies(c: Chain, env: Env, f: FuncId, cmd: Command)
    requires TryFrom(env.funcId) == Ok(f) && Interpret(f, env) == Some(cmd) && !Answers(cmd) && cmd != Nothing
    ensures var r := After(c, cmd, env.caller, env.creatable);
            Deliver(c, env) == if r.Some? then Reply(r.value, DONE) else Reply(c, Err(Failure(cmd)))
  {
  }

  lemma Answering(c: Chain, env: Env, f: FuncId, cmd: Command)
    requires TryFrom(env.funcId) == Ok(f) && Interpret(f, env) == Some(cmd) && Answers(cmd)
    ensures Deliver(c, env) == Execute(c, env, cmd)
  {
  }

  /** A reply is good exactly when `able`, and fails with `message` and no effect otherwise. */
  ghost predicate GoodIff(c: Chain, after: Reply, able: bool, message: string) {
    after.result == (if able then DONE else Err(message)) && (!able ==> after.chain == c)
  }

  /**
    0xdb20, transfer. Exactly when the caller can pay and keep the minimum and the other
    can receive, the reply is good and exactly `value` has moved; otherwise nothing has.
   */
  lemma TransferLaw(c: Chain, env: Env, id: nat, to: nat, value: nat)
    requires Inv(c) && env.funcId == 0xdb20 && ThreeFields(env.memory, id, to, value)
    ensures var able := CanTransfer(c, id, env.caller, to, value, env.creatable);
            && GoodIff(c, Deliver(c, env), able, "ChainExtension failed to call transfer")
            && (able ==> TransferDone(c, Deliver(c, env).chain, id, env.caller, to, value))
  {
    ThreeFieldsRead(env.memory, id, to, value);
    Replies(c, env, Transfer, Send(id, to, value));
    TransferExact(c, id, env.caller, to, value, env.creatable);
  }

  /**
    0x54b3, transfer from. Exactly when the caller's allowance, the owner's balance and the
    destination permit it, the reply is good: what was asked, with a rest too small to
    stay, has gone from owner to destination, and the allowance is less by what was asked.
   */
  lemma TransferFromLaw(c: Chain, env: Env, id: nat, from: nat, to: nat, value: nat)
    requires Inv(c) && env.funcId == 0x54b3 && FourFields(env.memory, id, from, to, value)
    ensures var key := ApprovalKey(id, from, env.caller);
            var able := CanSpend(c, key, to, value, env.creatable);
            && GoodIff(c, Deliver(c, env), able, "ChainExtension failed to call transfer_from")
            && (able ==> SpendsFor(c, Deliver(c, env).chain, key, to, value))
  {
    FourFieldsRead(env.memory, id, from, to, value);
    var key := ApprovalKey(id, from, env.caller);
    Replies(c, env, TransferFrom, Spend(key, to, value));
    TransferredApprovedExact(c, key, to, value, env.creatable);
  }

  /** In balances and allowance: what a good reply to a positive transfer-from means. */
  lemma TransferFromMoves(c: Chain, env: Env, id: nat, from: nat, to: nat, value: nat)
    requires Inv(c) && env.funcId == 0x54b3 && FourFields(env.memory, id, from, to, value)
    requires value > 0 && Deliver(c, env).result.Ok?
    ensures var key := ApprovalKey(id, from, env.caller);
            var c' := Deliver(c, env).chain;
            && id in c.assets && id in c'.assets && from in c.assets[id].holders && value <= c.assets[id].holders[from].balance
            && key in c.approvals && value <= c.approvals[key].amount
            && var moved := Taken(c.assets[id].holders[from].balance, value, c.assets[id].minBalance);
            && (key in c'.approvals <==> value < c.approvals[key].amount)
            && (key in c'.approvals ==> c'.approvals[key] == Approval(c.approvals[key].amount - value, 100_000_000))
            && c'.assets[id].supply == c.assets[id].supply
            && (forall w :: BalanceIn(c'.assets[id], w) == BalanceIn(c.assets[id], w)
                                                           + (if from != to && w == to then moved else 0)
                                                           - (if from != to && w == from then moved else 0))
  {
    TransferFromLaw(c, env, id, from, to, value);
    var key := ApprovalKey(id, from, env.caller);
    var c' := Deliver(c, env).chain;
    var a := c.assets[id];
    var moved := Taken(a.holders[from].balance, value, a.minBalance);
    var m :| OnlyAsset(c, m, id) && Moves(a, m.assets[id], from, to, moved) && Spends(m, c', key, value);
    forall w
      ensures BalanceIn(c'.assets[id], w) == BalanceIn(a, w)
                                             + (if from != to && w == to then moved else 0)
                                             - (if from != to && w == from then moved else 0)
    {
      SpendsBalances(c, c', key, to, value, w);
    }
    SpendsBalances(c, c', key, to, value, from);
  }

  /**
    0xb20f approve and 0x96d6 increase allowance, alike: on a live asset, with an entry or
    1 LUNES free for a new one, the allowance is what it was plus `value`.
   */
  lemma ApproveLaw(c: Chain, env: Env, id: nat, spender: nat, value: nat)
    requires Inv(c) && (env.funcId == 0xb20f || env.funcId == 0x96d6) && ThreeFields(env.memory, id, spender, value)
    ensures var key := ApprovalKey(id, env.caller, spender);
            && GoodIff(c, Deliver(c, env), CanApprove(c, key), "ChainExtension failed to call approve")
            && (CanApprove(c, key) ==> ApproveDone(c, Deliver(c, env).chain, key, value))
  {
    ThreeFieldsRead(env.memory, id, spender, value);
    var key := ApprovalKey(id, env.caller, spender);
    if env.funcId == 0xb20f {
      Replies(c, env, Approve, Grant(key, value));
    } else {
      Replies(c, env, IncreaseAllowance, Grant(key, value));
    }
    ApproveExact(c, key, value);
  }

  lemma LoweredExact(c: Chain, key: ApprovalKey, value: nat)
    requires Inv(c)
    ensures var r := Lowered(c, key, value);
            && (r.Some? <==> CanDecrease(c, key, value))
            && (r.Some? ==> DecreaseDone(c, r.value, key, value))
  {
    if value > 0 && IsLive(c, key.asset) && key in c.approvals {
      if value >= c.approvals[key].amount {
        ReleasedExact(c, key);
      } else {
        ReenteredExact(c, key, c.approvals[key].amount - value);
      }
    }
  }

  /**
    0xfecb, decrease allowance: the allowance falls by `value`, stopping at zero, and then
    the entry goes and its deposit is free again.
   */
  lemma DecreaseLaw(c: Chain, env: Env, id: nat, spender: nat, value: nat)
    requires Inv(c) && env.funcId == 0xfecb && ThreeFields(env.memory, id, spender, value)
    ensures var key := ApprovalKey(id, env.caller, spender);
            && GoodIff(c, Deliver(c, env), CanDecrease(c, key, value), "ChainExtension failed to call decrease_allowance")
            && (CanDecrease(c, key, value) ==> DecreaseDone(c, Deliver(c, env).chain, key, value))
  {
    ThreeFieldsRead(env.memory, id, spender, value);
    var key := ApprovalKey(id, env.caller, spender);
    Replies(c, env, DecreaseAllowance, Lower(key, value));
    LoweredExact(c, key, value);
  }

  /** 0x9e55, burn: supply and balance fall by what was asked, or by all that is there if too little would stay. */
  lemma BurnLaw(c: Chain, env: Env, id: nat, from: nat, value: nat)
    requires Inv(c) && env.funcId == 0x9e55 && ThreeFields(env.memory, id, from, value)
    ensures var able := CanBurn(c, id, env.caller, from, value);
            && GoodIff(c, Deliver(c, env), able, "ChainExtension failed to call burn")
            && (able ==> BurnDone(c, Deliver(c, env).chain, id, from, value))
  {
    ThreeFieldsRead(env.memory, id, from, value);
    Replies(c, env, Burn, Destroy(id, from, value));
    BurnExact(c, id, env.caller, from, value);
  }

  /** 0x6bba, mint: a good reply to any bytes at all, and nothing happens. */
  lemma MintLaw(c: Chain, env: Env)
    requires env.funcId == 0x6bba
    ensures Deliver(c, env) == Reply(c, DONE)
  {
  }

  /** 0x162d, total supply. */
  lemma TotalSupplyLaw(c: Chain, env: Env, id: nat)
    requires Inv(c) && env.funcId == 0x162d
    requires 4 <= |env.memory| && id <= U32_MAX && env.memory[..4] == Encode(id, 4)
    ensures var after := Deliver(c, env);
            && after.chain == c
            && (if env.writable then
                  && after.result.Ok? && |after.result.value| == 16
                  && Decode(after.result.value) == if id in c.assets then c.assets[id].supply else 0
                else after.result == Err("ChainExtension failed to call PSP22 query"))
  {
    IdRead(env.memory, id);
    var cmd := AskSupply(id);
    Answering(c, env, Query(TotalSupply), cmd);
    if env.writable {
      AnswersDecode(c, env, cmd);
    }
  }

  /** 0x6568, balance of. */
  lemma BalanceOfLaw(c: Chain, env: Env, id: nat, owner: nat)
    requires Inv(c) && env.funcId == 0x6568
    requires 36 <= |env.memory| && id <= U32_MAX && owner < Pow256(32)
    requires env.memory[..4] == Encode(id, 4) && env.memory[4..36] == Encode(owner, 32)
    ensures var after := Deliver(c, env);
            && after.chain == c
            && (if env.writable then
                  && after.result.Ok? && |after.result.value| == 16
                  && Decode(after.result.value) ==
                     if id in c.assets && owner in c.assets[id].holders then c.assets[id].holders[owner].balance else 0
                else after.result == Err("ChainExtension failed to call PSP22 query"))
  {
    OwnerRead(env.memory, id, owner);
    var cmd := AskBalance(id, owner);
    Answering(c, env, Query(BalanceOfAccount), cmd);
    if env.writable {
      AnswersDecode(c, env, cmd);
    }
  }

  /** 0x4d47, allowance. */
  lemma AllowanceLaw(c: Chain, env: Env, id: nat, owner: nat, spender: nat)
    requires Inv(c) && env.funcId == 0x4d47
    requires 68 <= |env.memory| && id <= U32_MAX && owner < Pow256(32) && spender < Pow256(32)
    requires env.memory[..4] == Encode(id, 4) && env.memory[4..36] == Encode(owner, 32) && env.memory[36..68] == Encode(spender, 32)
    ensures var key := ApprovalKey(id, owner, spender);
            var after := Deliver(c, env);
            && after.chain == c
            && (if env.writable then
                  && after.result.Ok? && |after.result.value| == 16
                  && Decode(after.result.value) == if key in c.approvals then c.approvals[key].amount else 0
                else after.result == Err("ChainExtension failed to call PSP22 query"))
  {
    OwnerSpenderRead(env.memory, id, owner, spender);
    var cmd := AskAllowance(ApprovalKey(id, owner, spender));
    Answering(c, env, Query(Allowance), cmd);
    if env.writable {
      AnswersDecode(c, env, cmd);
    }
  }

  /** 0x3d26 name, 0x3420 symbol, 0x7271 decimals. */
  lemma MetadataLaw(c: Chain, env: Env)
    requires env.funcId in {0x3d26, 0x3420, 0x7271} && 4 <= |env.memory|
    ensures var asked := if env.funcId == 0x3d26 then env.described.name
                         else if env.funcId == 0x3420 then env.described.symbol
                         else env.described.decimals;
            Deliver(c, env) == Reply(c, if env.writable then Ok(asked) else Err("ChainExtension failed to call PSP22Metadata"))
  {
    LayoutSizes();
  }

  /** How many bytes each function reads; those of minting are not looked at. */
  function Needed(funcId: nat): nat {
    match funcId
    case 0x3d26 => 4
    case 0x3420 => 4
    case 0x7271 => 4
    case 0x162d => 4
    case 0x6568 => 36
    case 0x4d47 => 68
    case 0xdb20 => 52
    case 0x54b3 => 84
    case 0xb20f => 52
    case 0x96d6 => 52
    case 0xfecb => 52
    case 0x9e55 => 52
    case _ => 0
  }

  /** Too little memory is an error that changes nothing. */
  lemma ShortMemoryLaw(c: Chain, env: Env)
    requires |env.memory| < Needed(env.funcId)
    ensures Deliver(c, env) == Reply(c, Err("OutOfBounds"))
  {
    LayoutSizes();
    var f := TryFrom(env.funcId).value;
    assert Interpret(f, env).None?;
  }

  /** So is any other function id, whatever the bytes. */
  lemma OtherIdLaw(c: Chain, env: Env)
    requires env.funcId !in {0x3d26, 0x3420, 0x7271, 0x162d, 0x6568, 0x4d47, 0xdb20, 0x54b3, 0xb20f, 0x96d6, 0xfecb, 0x9e55, 0x6bba}
    ensures Deliver(c, env) == Reply(c, Err("Unimplemented func_id"))
  {
  }
}
