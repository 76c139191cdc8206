# Lunes runtime: verified model

This project models the parts of the Lunes node that compute something of their own and
proves properties of them over all inputs and all runs:

- the fee economy: weight-to-fee conversion, the division of fees and tips between block
  author, treasury and burn, and the issuance it moves;
- the PSP22 chain extension over the assets pallet, from the bytes a contract passes to the
  ledger they change, and the gate that restricts minting;
- genesis, the benchmark script's amount printer and capacity computation, and the
  mortal-era period.

## How it is built

| file | content |
|---|---|
| Numbers, Sums | integer widths, saturating operations, sums over maps |
| Currency | the used slice of the balances pallet: accounts, issuance, live imbalances |
| FeeHandling | `Author`, `TreasuryLunes`, `DealWithFees` on live imbalances |
| FeeLaws | the exact result of a settlement, a charge and the handler, in numbers |
| FeeRuns | runs of charged transactions: conservation, threshold, income |
| WeightFee | `WeightToFeeLunes` and the inclusion fee |
| AssetLedger, AssetInvariants | the used slice of the assets pallet, and what it keeps |
| AssetLaws | for each ledger operation, exactly when it succeeds and all that it leaves |
| Scale | the fixed-width input layouts |
| Psp22, Psp22Runs | the chain extension, and what holds over its runs |
| Psp22Laws | what each function id answers and does, from the bytes passed to it |
| MintGate, MintLaws | `RestrictAssetMint` at the pool and before dispatch |
| Genesis, Runtime | the starting state; fees, tokens and mints interleaved |
| ApprovalCounts | when the u32 approval counts stay right over such runs |
| Planck, Capacity, Era | printer, block capacity, era period |

State that the source changes in place is a class (`Currency.Balances`,
`AssetLedger.Assets`) and the code working on it is methods. Each such method is proved
against a transition of plain values, and the theorems about runs are about those
transitions. An imbalance is a handle whose amount the ledger holds; using one twice
violates a precondition. `Balances.Valid` says that recorded issuance plus live positive
imbalances equals accounts plus live negative ones. Every method keeps it, so it holds at
each intermediate step of the fee handler.

The modules named Laws say what each operation does in full, from the state before the call and
with every share, limit, deposit and function id as a number: when it succeeds, what it
answers, and each account, balance, allowance and count afterwards.

Balances and assets pallets (Substrate, branch polkadot-v0.9.40) are libraries outside this
repository. Their rules are assumptions of the model and are written out in Currency.dfy and
AssetLedger.dfy as executable definitions. What the system outside decides is a parameter
over which every theorem quantifies: the block author, whether an account can take one more
consumer reference, whether an output buffer is writable, the encoded name, symbol and
decimals of an asset.

Where code and documentation differ the model follows the code. The tuning notes say that
doubling `WEIGHT_FEE_DIVISOR` halves every fee; because of the floor that holds only as
`WeightFee.RecalibrationScalesFeeIff` states. Both places that build transactions compute
the era period by the same expression, so one function stands for both.

## Model

| member | source | states |
|---|---|---|
| Currency.Balances.Split | runtime/src/lib.rs:404-406 | an imbalance is divided in two without changing what exists |
| Currency.Balances.MergeInto | runtime/src/lib.rs:399-402 | merging the tip into the fee in place keeps their sum; the saturating add is exact |
| Currency.Balances.Drop | runtime/src/lib.rs:390-393 | dropping an imbalance lowers issuance by exactly its amount |
| Currency.Balances.DepositCreating | runtime/src/lib.rs:350-355 | credits an account and accounts for it by a positive imbalance, or refuses and creates nothing |
| Currency.Balances.Offset | runtime/src/lib.rs:350-355 | opposite imbalances cancel, the difference survives on the larger side |
| Currency.Balances.ResolveCreating | runtime/src/lib.rs:358-365 | the value arrives whole, or is burnt when it would open an account below the existential deposit; it never overflows |
| Currency.Balances.Withdraw | runtime/src/lib.rs:425-427 | takes fee and tip from a payer who stays alive, or fails without effect |
| FeeHandling.RationShares | runtime/src/lib.rs:367-371 | the outer ration takes a quarter; exact if and only if a quarter fits below the saturated product |
| FeeHandling.HalvesExactly | runtime/src/lib.rs:372-375 | the inner ration always halves exactly |
| FeeHandling.Ration | runtime/src/lib.rs:404-417 | consumes one imbalance and leaves two that sum to it |
| FeeHandling.OnUnbalanced | runtime/src/lib.rs:349-366 | a receiver credits its account or the value leaves issuance; the imbalance is gone either way |
| FeeHandling.DropAll | runtime/src/lib.rs:397-398 | items left in the iterator are burnt, each once |
| FeeHandling.DistributeTreasuryBurn | runtime/src/lib.rs:411-420 | the threshold is compared with the issuance left after the author's share settled |
| FeeHandling.Distribute | runtime/src/lib.rs:404-420 | the imbalance machinery computes the plain settlement, in every branch |
| FeeHandling.DealWithFees | runtime/src/lib.rs:395-423 | for any number of items: fee and tip settle as one amount, further items are burnt, no item stays live, the ledger stays balanced |
| FeeRuns.ChargeFee | runtime/src/lib.rs:425-427 | charging a transaction on live imbalances is one settlement of what was paid, whatever the tip, and leaves no imbalance |
| FeeLaws.SettleExact | runtime/src/lib.rs:396-423 | for every ledger, author and amount: the exact issuance and the free and reserved part of every account, shares refused below 500 planck burnt, with recipients alive, dead or absent |
| FeeLaws.DeadTreasury | runtime/src/lib.rs:410-417 | above the threshold half of the quarter opens a dead treasury's account if it reaches 500 planck and the rest is burnt; otherwise the whole quarter is burnt |
| FeeLaws.DeadAuthor | runtime/src/lib.rs:350-355 | a dead author's account opens exactly when its share reaches 500 planck, with exactly the share |
| FeeLaws.ThresholdExact | runtime/src/lib.rs:376-379 | at 5,000,000,000,000,000 planck nothing is burnt, one planck above half of the quarter is |
| FeeLaws.ChargeExact | runtime/src/lib.rs:425-427 | exactly who can be charged; the payer loses what was paid and all of it is settled, or nothing changes |
| FeeLaws.FirstFee | runtime/src/lib.rs:358-365 | the first fee of the main network opens the treasury with 25,006 planck and burns 25,007 |
| FeeLaws.HandledExact | runtime/src/lib.rs:396-423 | the handler on no, one, two or more items: no effect, the fee, fee and tip together, the rest burnt |
| FeeLaws.TreasuryKey | runtime/src/lib.rs:361-363 | the treasury is the account with these 32 key bytes |
| FeeRuns.SettleConserves | runtime/src/lib.rs:395-423 | what comes in is in accounts or gone from issuance, which does not rise |
| FeeRuns.RunConserves | runtime/src/lib.rs:395-423 | over any run issuance equals what accounts hold and never rises |
| FeeRuns.SettleDistributes | runtime/src/lib.rs:383-389 | with live recipients: author, treasury, burn get their parts and nobody else is touched |
| FeeRuns.SettleWithoutAuthor | runtime/src/lib.rs:408-420 | without an author its side is burnt first, and the threshold is compared with what remains |
| FeeRuns.TwoLevelShares | runtime/src/lib.rs:367-376 | below saturation a quarter, an eighth to the treasury, at most one planck more to the burn |
| FeeRuns.SettleKeepsIssuanceIff | runtime/src/lib.rs:396-423 | exactly when a settlement leaves issuance unchanged, with absent author and refused deposits included |
| FeeRuns.StableBelowThreshold | runtime/src/lib.rs:376-379 | with live recipients no fee of any run changes an issuance at or below the threshold |
| FeeRuns.ThresholdUndershoot | runtime/src/lib.rs:408-420 | no run falls below the threshold by a whole burn share |
| FeeRuns.NoAuthorBurnsBelowThreshold | runtime/src/lib.rs:350-355 | at the threshold, without an author, the fee of a plain transfer burns its whole author side: a concrete ledger |
| FeeRuns.AuthorIncome | runtime/src/lib.rs:367-369 | over any run an author ends with what it had plus its share less the fees it paid; the share is 75% of what its blocks charged, rounded up by less than a planck a charge |
| FeeRuns.MergingGains | runtime/src/lib.rs:398-406 | merging n parts before rationing moves between 0 and n-1 planck to the treasury side |
| WeightFee.NeverSaturates | runtime/src/lib.rs:327-338 | before the floor, the conversion of u64 weights is the plain integer quotient, for any divisor |
| WeightFee.WeightToFeeExact | runtime/src/lib.rs:327-338 | the fee of every u64 weight is (ref_time + proof_size) / 1380, or 1000 if that is less |
| WeightFee.InclusionFeeNumbers | runtime/src/lib.rs:339-346 | the inclusion fee in numbers: both weight fees, ref_time capped at two seconds, and 10 planck a byte |
| WeightFee.FeeMonotone | runtime/src/lib.rs:313-325 | the fee grows with both components of the weight |
| WeightFee.FeeNearlyAdditive | runtime/src/lib.rs:327-338 | charging together or apart differs by the floor below and one planck above |
| WeightFee.Recalibrated | runtime/src/lib.rs:298-312 | multiplying the divisor by k divides every un-floored fee by k, for every weight |
| WeightFee.RecalibrationsCompose | runtime/src/lib.rs:298-312 | two recalibrations are one by the product of their factors |
| WeightFee.RecalibrationScalesFeeIff | docs/NETWORK_TUNING.md:60-61 | when a fee with its floor scales by k: exactly for k = 1 or when the floor is still reached |
| WeightFee.DoublingDoesNotHalve | docs/NETWORK_TUNING.md:60-61 | a weight whose fee doubling the divisor does not halve |
| WeightFee.RecalibrationKeepsOrder | runtime/src/lib.rs:298-312 | recalibrating keeps the order between operations, floor included |
| WeightFee.InclusionFeeExact | runtime/src/lib.rs:339-346 | base, byte and weight fee add without saturating, and the sum is positive |
| WeightFee.InclusionFeeMonotone | runtime/src/lib.rs:425-432 | the inclusion fee grows with weight and length |
| WeightFee.BatchNeverCostsMore | docs/NETWORK_TUNING.md:45-48 | one extrinsic for a whole sequence never costs more, by at least 999 planck for each one saved |
| AssetInvariants.MoveEffect | runtime/src/chain_extension.rs:235-242 | a move debits the source and credits the destination alike, touches nobody else, keeps supply |
| AssetInvariants.MovesExactlyIff | runtime/src/chain_extension.rs:261-270 | a transfer on behalf moves exactly what was asked unless the rest is too small to stay |
| AssetInvariants.RestFollowsBeyondAllowance | runtime/src/chain_extension.rs:261-270 | a concrete spend, in a ledger that keeps every invariant, that moves more than its allowance |
| AssetInvariants.BurnKeeps | runtime/src/chain_extension.rs:350-355 | a successful burn lowers supply and the target's balance alike, keeps everything else and every invariant, only for the admin; less than asked only to zero |
| AssetInvariants.MintKeeps | runtime/src/lib.rs:1147-1165 | minting raises supply and one balance by the amount, only for the issuer |
| AssetInvariants.CreateKeeps | runtime/src/lib.rs:1140-1155 | creating an asset adds no supply and only reserves |
| AssetInvariants.EntriesBounded | runtime/src/lib.rs:1141-1159 | each approval ties up a deposit, so the money supply bounds their number |
| AssetInvariants.ApproveEffect | runtime/src/chain_extension.rs:285-292 | an approval reserves one deposit for a new entry and none for an old one |
| AssetInvariants.ApproveCountsIff | runtime/src/chain_extension.rs:285-292 | the u32 entry count goes wrong exactly when a new entry meets a full count |
| AssetInvariants.CancelThenApprove | runtime/src/chain_extension.rs:315-335 | after a cancel the re-approval succeeds; both together lower the entry and take the count down and up |
| AssetInvariants.RecountedIff | runtime/src/chain_extension.rs:315-335 | down and up leaves the count as it was exactly when it counted the entry |
| AssetInvariants.SpendEffect | runtime/src/chain_extension.rs:261-270 | a successful spend lowers this allowance by what was asked, the entry goes at zero, others stay |
| AssetInvariants.TransferApprovedKeeps | runtime/src/chain_extension.rs:248-271 | a spend keeps supplies backed, deposits matched and counts right |
| AssetLaws.TransferExact | runtime/src/chain_extension.rs:235-242 | exactly when a transfer succeeds, and that exactly the value moves and nothing else changes |
| AssetLaws.TransferredApprovedExact | runtime/src/chain_extension.rs:261-268 | exactly when a spend succeeds: what leaves the owner arrives at the destination, and the allowance falls by what was asked |
| AssetLaws.SpendsBalances | runtime/src/chain_extension.rs:261-268 | what a spend leaves in every balance and in the supply |
| AssetLaws.ApproveExact | runtime/src/chain_extension.rs:285-292 | exactly when an approval succeeds, new entry or old, and the allowance, deposit and count it leaves |
| AssetLaws.BurnExact | runtime/src/chain_extension.rs:350-355 | exactly when a burn succeeds, and that it takes what was asked, or all if too little would stay |
| AssetLaws.MintExact | runtime/src/lib.rs:1147-1165 | exactly when a mint succeeds, and that supply and one balance rise by the amount |
| AssetLaws.CreatedExact | runtime/src/lib.rs:1140-1155 | exactly when an asset can be created, its record, and the 100 LUNES its signer reserves |
| AssetLedger.Assets.Transfer | runtime/src/chain_extension.rs:235-242 | crediting the destination, then debiting the source, equals the transfer, or nothing changes |
| AssetLedger.Assets.Burn | runtime/src/chain_extension.rs:350-355 | debiting the target, then lowering supply, equals the burn, or nothing changes |
| AssetLedger.Assets.Mint | runtime/src/lib.rs:1147-1165 | crediting the beneficiary, then raising supply, equals the mint, or nothing changes |
| AssetLedger.Assets.Approve | runtime/src/chain_extension.rs:285-292 | the stored state after an approval, or no change on failure |
| AssetLedger.Assets.Cancel | runtime/src/chain_extension.rs:315-322 | the stored state after a cancellation, or no change on failure |
| AssetLedger.Assets.TransferApproved | runtime/src/chain_extension.rs:261-268 | the stored state after a transfer on behalf, or no change on failure |
| Scale.InputRoundTrip | runtime/src/chain_extension.rs:40-87 | encoded inputs read back whatever follows, and every readable input encodes to the bytes it consumed |
| Scale.LayoutSizes | runtime/src/chain_extension.rs:40-87 | the inputs are 4, 36, 68, 52 and 84 bytes wide |
| Scale.LittleEndian | runtime/src/chain_extension.rs:40-87 | byte k of an encoded number is its k-th base-256 digit, lowest first |
| Psp22.CallMetadata | runtime/src/chain_extension.rs:155-184 | answers the name, symbol or decimals it is asked for, or fails, without touching any ledger |
| Psp22.CallQuery | runtime/src/chain_extension.rs:186-221 | answers the ledger's number in 16 bytes, changing nothing |
| Psp22.CallTransfer | runtime/src/chain_extension.rs:223-246 | from the caller, who stays alive; unchanged on failure |
| Psp22.CallTransferFrom | runtime/src/chain_extension.rs:248-271 | the caller spends its allowance; unchanged on failure |
| Psp22.CallApprove | runtime/src/chain_extension.rs:273-293 | the caller adds to an allowance; unchanged on failure |
| Psp22.Decrease | runtime/src/chain_extension.rs:303-338 | read, cancel, reduce, re-approve refines one atomic decrease |
| Psp22.CallDecreaseAllowance | runtime/src/chain_extension.rs:295-339 | the same from the input bytes; unchanged on failure |
| Psp22.CallBurn | runtime/src/chain_extension.rs:340-358 | best-effort burn by the admin; unchanged on failure |
| Psp22.Call | runtime/src/chain_extension.rs:385-410 | dispatch on the function id is one atomic step of the ledger, for any id and any bytes |
| Psp22Laws.TransferLaw | runtime/src/chain_extension.rs:223-246 | id 0xdb20: the reply is good exactly when the caller can pay, keep the minimum and the other receive, and then exactly the value has moved |
| Psp22Laws.TransferFromLaw | runtime/src/chain_extension.rs:248-271 | id 0x54b3: the reply is good exactly when allowance, balance and destination permit, and then the move and the spend have happened |
| Psp22Laws.TransferFromMoves | runtime/src/chain_extension.rs:261-270 | the same as numbers: every balance and the allowance after a good reply |
| Psp22Laws.ApproveLaw | runtime/src/chain_extension.rs:273-293 | ids 0xb20f and 0x96d6: exactly when the reply is good, and the allowance is then higher by the value up to the u128 limit |
| Psp22Laws.DecreaseLaw | runtime/src/chain_extension.rs:295-339 | id 0xfecb: exactly when the reply is good; the allowance falls by the value or to zero, where the entry goes and the deposit returns |
| Psp22Laws.BurnLaw | runtime/src/chain_extension.rs:340-358 | id 0x9e55: exactly when the reply is good, and how far supply and balance have fallen |
| Psp22Laws.MintLaw | runtime/src/chain_extension.rs:360-378 | id 0x6bba: a good reply and no effect, whatever the bytes |
| Psp22Laws.TotalSupplyLaw | runtime/src/chain_extension.rs:195-199 | id 0x162d answers the supply in 16 little-endian bytes, zero for an unknown asset |
| Psp22Laws.BalanceOfLaw | runtime/src/chain_extension.rs:200-206 | id 0x6568 answers the balance of the owner in the bytes |
| Psp22Laws.AllowanceLaw | runtime/src/chain_extension.rs:207-214 | id 0x4d47 answers what the owner allows the spender |
| Psp22Laws.MetadataLaw | runtime/src/chain_extension.rs:155-184 | ids 0x3d26, 0x3420 and 0x7271 answer name, symbol and decimals |
| Psp22Laws.ShortMemoryLaw | runtime/src/chain_extension.rs:155-354 | too few bytes for the function is an error without effect |
| Psp22Laws.OtherIdLaw | runtime/src/chain_extension.rs:126-153 | every other id is an error without effect |
| Psp22Runs.SelectorsExact | runtime/src/chain_extension.rs:126-153 | one id for each function, none shared, all others refused |
| Psp22Runs.OthersLeaveLedger | runtime/src/chain_extension.rs:395-405 | a changed ledger means a successful call of one of the six writing functions |
| Psp22Runs.DeliverKeeps | runtime/src/chain_extension.rs:385-410 | any call keeps supplies backed and not rising, and deposits matched, whatever the money supply |
| Psp22Runs.RunKeeps | runtime/src/chain_extension.rs:385-410 | the same over any run of calls |
| Psp22Runs.DeliverCountsIff | runtime/src/chain_extension.rs:385-410 | any call keeps the entry counts right, except exactly a new approval on a full count |
| Psp22Runs.AnswersDecode | runtime/src/chain_extension.rs:196-220 | what a query answers decodes to the ledger's number |
| Psp22Runs.DecreaseEffect | runtime/src/chain_extension.rs:323-335 | the allowance falls by the value down to zero, deposit held exactly while some remains, all else untouched; the count too exactly when it counted the entry |
| Psp22Runs.CallAuthority | runtime/src/chain_extension.rs:223-358 | who can lower a balance, and who can raise or lower an allowance, by any call |
| Psp22Runs.UnaskedKeeps | runtime/src/chain_extension.rs:223-358 | over any run, a holder who approved nobody and calls nothing loses nothing except to the admin |
| Psp22Runs.EncodedTransferFrom | runtime/src/chain_extension.rs:257-268 | which bytes are asset, owner, destination and value; the caller is the spender |
| Psp22Runs.EncodedCalls | runtime/src/chain_extension.rs:231-354 | the same for the calls on an asset, an account and a value |
| Psp22Runs.EncodedQuery | runtime/src/chain_extension.rs:196-216 | which bytes the queries read as asset, owner and spender |
| Psp22Runs.SenderStays | runtime/src/chain_extension.rs:235-241 | a transfer moves exactly its value and leaves the sender its minimum balance |
| Psp22Runs.AllowanceAccounting | runtime/src/chain_extension.rs:248-339 | over any run: allowance = before + granted - spent - lowered - lost; spent never exceeds granted |
| Psp22Runs.NothingLost | runtime/src/chain_extension.rs:400-402 | nothing is lost while the grants fit a u128 |
| MintGate.StepSupply | runtime/src/lib.rs:1122-1137 | in any step, supply of an asset other than id 2 rises only from zero, by one included mint |
| MintGate.PoolAdmission | runtime/src/lib.rs:1102-1119 | over any run, a mint that entered the pool was submitted while its asset was id 2 or had no supply |
| MintGate.AtMostOneMint | runtime/src/lib.rs:1102-1137 | however many mints the pool accepted, at most one positive mint since supply was last zero |
| MintGate.SupplyWithinOneMint | runtime/src/lib.rs:1102-1137 | mints never add up: supply stays within the largest single mint |
| MintGate.RefusedUntilZero | runtime/src/lib.rs:1122-1137 | over any run, while an asset other than id 2 has supply, every mint of it in a block is refused and changes nothing |
| MintGate.AllowanceAccounting | runtime/src/chain_extension.rs:248-339 | the accounting of an allowance with asset creation and mints between the calls |
| MintLaws.GateExact | runtime/src/lib.rs:1102-1137 | pool and pre-dispatch accept a mint if and only if its asset is 2 or has no supply |
| MintLaws.AppliedExact | runtime/src/lib.rs:1122-1137 | a mint in a block raises supply and balance by its amount exactly when the gate is open and the pallet can mint; otherwise nothing changes |
| MintLaws.StepExact | runtime/src/lib.rs:1102-1137 | pool and ledger after every step of a node, admission and refusal included |
| MintLaws.OnlyAssetTwoGrows | runtime/src/lib.rs:1129-1134 | asset 2 can be minted whatever supply it has, any other asset with supply stays as it is |
| Genesis.MainnetGenesis | node/src/chain_spec.rs:334-351 | the loop gives root the rest of the issuance modulo 2^128, and builds stakers and council |
| Genesis.GenesisConserves | node/src/chain_spec.rs:340-347 | the list sums to the issuance if and only if the endowments fit it, and then no prefix underflows |
| Genesis.RootShare | node/src/chain_spec.rs:334-351 | root's part in numbers, on both kinds of network, with the wrap-around of an excess |
| Genesis.StartingFunds | node/src/chain_spec.rs:334-351 | exactly which accounts start with how much |
| Genesis.FeesFromGenesis | node/src/chain_spec.rs:334-351 | from genesis over any fee run: conserved, bounded by the starting issuance, never saturating |
| Genesis.StakersCovered | runtime/src/constants.rs:12-17 | an authority endowed with the collator stake covers its bond |
| Runtime.RunSound | runtime/src/lib.rs:395-423 | fees, contract calls, asset creation and mints interleaved keep money and token ledger consistent, for any money supply |
| Runtime.FeeStep | runtime/src/lib.rs:395-423 | a fee between token events is one charge of the common ledger and touches no asset, approval or pool |
| Runtime.NetworkSound | node/src/chain_spec.rs:334-351 | and so does every run from genesis, on the main network and on the test networks |
| ApprovalCounts.RunCountsIff | runtime/src/chain_extension.rs:285-292 | over any run the u32 entry counts are right all along if and only if no new approval meets a full count |
| ApprovalCounts.SmallSupplyNeverOverfills | runtime/src/lib.rs:1141-1159 | below 2^32 LUNES deposits run out before a count is full |
| ApprovalCounts.MainnetCountsAgree | runtime/src/constants.rs:15-15 | on the main network the counts are right in every run from genesis |
| ApprovalCounts.TestnetCountGoesWrong | node/src/chain_spec.rs:335-338 | a test network whose root keeps 2^32 + 100 LUNES has a run from genesis to a wrong count |
| ApprovalCounts.StagingTestnetCountGoesWrong | node/src/chain_spec.rs:308-319 | the staging test network's endowments leave its root that much |
| Planck.FormatRoundTrip | scripts/benchmark-network.js:9-14 | reading the printed amount gives it back, and the text is canonical |
| Planck.CanonicalIsPrinted | scripts/benchmark-network.js:9-14 | every canonical text is what its amount prints as |
| Planck.FormatInjective | scripts/benchmark-network.js:9-14 | no two amounts print alike |
| Planck.SingleDigits | scripts/benchmark-network.js:9-14 | how each digit prints, alone and after the point |
| Capacity.PerBlock | scripts/benchmark-network.js:144-171 | the greatest count that fits all three limits, and the first limit one more would break |
| Capacity.CapacityInNumbers | scripts/benchmark-network.js:156-160 | limit by limit: the count fits all three, and which limit is reported as the bottleneck |
| Era.PeriodIff | runtime/src/lib.rs:741-742 | the period is the power of two below the count covering half of it exactly for counts 2 to 2^31 |

## Left out

- Currency.Balances.Withdraw: does not model balance locks, nor the payment pallet's refund of unused weight fee; `paid` is what is charged in the end.
- AssetLedger.Assets.Approve: the reserve it calls does not model balance locks either.
- Psp22.CallMetadata: the content of names, symbols and decimals is a parameter.
- WeightFee.InclusionFeeExact: leaves out the tip and the operational priority factor; the fee multiplier is the constant one.
- Psp22.Call: weight charging by the contracts pallet and the rollback of a failed contract transaction are not modelled; the proofs show that a failing extension call changes nothing by itself.
- MintGate.StepSupply: covers calls of the extrinsic itself, which is what the gate matches on, not calls nested in other calls; id 2 is exempt from the gate by design.
- MintGate.SupplyWithinOneMint: of the assets pallet's other dispatchables only `create` takes part in runs; freezing, team changes, touch, destroy and direct transfers do not.
- Genesis.MainnetGenesis: session keys and the other pallets' genesis sections are not modelled; a build with overflow checks would panic where the model wraps.
- Era.PeriodIff: what the era type makes of the period is library behaviour.
- Capacity.PerBlock: the transactions-per-second quotient is floating point.
- FeeHandling.OnUnbalanced: who the block author is comes from the authorship pallet as a parameter.
- Elections, staking rewards, governance, NFTs, contract execution, node service, CLI, RPC, networking: wiring or behaviour of libraries.
- The voter-bag table, generated weights, the no-op migration and the template pallet: they would add only easy members.
