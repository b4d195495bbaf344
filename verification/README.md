# Verified model of the Meta-Pool programs

This project models two on-chain programs and proves what they keep: the stake pool (`program/`), which takes stake
accounts in exchange for pool tokens and runs a wSOL/stSOL liquidity pool, and the SPL token program
(`token/program/`), which the pool calls. It also models the stake warm-up and cool-down arithmetic
(`program/src/stake.rs`) and the client's choice of accounts to withdraw from (`cli/src/main.rs`).

The handlers are methods of two classes, `TokenProgram` and `StakePoolProgram`, that update fields in the order the
source does. Each is proved equal to a specification function on values (`token_spec.dfy`, `pool_spec.dfy`), errors
included: the method contracts state the outcome and the whole new state. What those functions do is stated apart from
them, by what the ledger shows before and after (`token_effects.dfy`, `pool_effects.dfy`): for each instruction, exactly
when it succeeds, who gains and who loses how much, and what it leaves alone. The theorems then are about every run.

`dafny verify dfyconfig.toml` checks the project.

## The main results

- **When the pool's unchecked subtractions are safe.** The joined machine (`PoolSafety`) interleaves any token
  instruction, any pool instruction with any accounts, clock ticks, account creation, outside lamport moves and purges.
  Each pool instruction keeps the joined invariant if and only if a stated condition holds before it. On every run from
  the start under those conditions, a burn of the pool's tokens takes at most the holder's balance, which is at most the
  mint's supply, which is at most `pool_total`; the floor division then takes at most `stake_total`. This crosses the
  two programs: it rests on the token program's conservation law and on who may sign for the pool's mint. Deposit and
  Withdraw do not compare the mint they are given with the pool's; what a foreign mint does is part of the theorems, and
  `PoolExamples.WorthlessTokensWithdraw` shows the harm.
- **Rewards reach the pool.** After any number of list updates in an epoch, a pool update that succeeds records exactly the
  sum of what the accounts of the outdated records hold and of the balances that were current.
- **The stake cache is exact.** Each instruction keeps `stake_total` equal to the sum of the recorded balances if and
  only if the stake account it touches held its recorded balance and the additions fit.
- **Nobody gains by rounding.** The price of a pool token never falls on any run of deposits, additions and withdrawals
  within range, so one that ends with at least as many pool tokens as it began with takes out no more lamports than it
  put in.
- **Token conservation, authority, freezing, allowances, native backing**, each on every run.
- **The liquidity pool, exactly as far as it is safe.** AddLiquidity and SellstSOL leave the check of their accounts
  commented out, so a caller may pass any account where the pool's belongs; and an addition is priced on the wSOL alone,
  while shares own both sides (the repository's `README.md:84`). For a fixed pool and an arbitrary instruction, a sale keeps the pool's worth, and an
  addition the worth per share, if and only if a stated condition on the accounts and amounts holds, and on every mixed
  run under these conditions the worth of a share never falls. `PoolExamples` shows four ways to fail them, an honest
  addition to a pool that holds stSOL among them. What an addition into the pool's own account does keep is the wSOL per
  share.
- **Warm-up and cool-down.** Effective stake rises to the deactivation epoch if and only if no addition wraps, and falls
  from it, for every history and every rounding; exactly the delegations for which the second half fails are named. The
  value at every exit and the step from each epoch to the next are stated in full.
- **Greedy selection** is exact and uses the fewest accounts, and overdraws one exactly where stated.
- **Codecs** are two-way inverses, whatever a buffer held before.

## How the source's arithmetic and failures are modelled

- `+=` and `-=` without a check wrap at 2^64, as in a release build (`WrapAdd`, `WrapSub`). The proofs say when they
  do not wrap, and `PoolExamples` shows states in which they do.
- A handler that returns an error leaves the state as it was, because the runtime discards its writes and those of the
  programs it called. A Rust panic is the error `Panicked`.
- A record is told apart by its length, so an account holds a mint, a token account, a multisig, a stake account or
  something foreign.

## Assumptions

- Accounts handed to the token program are blank. The clock does not go back. Rent minimums are positive.
- Nobody but the pool program signs for its two program addresses, and no token account is created at them.
- The mint given to Initialize is not checked for supply; `PoolSafety.InitializeKeeps` shows that the invariant depends on
  exactly this. The documentation says that the mint of Deposit and Withdraw is the pool's
  (`program/src/instruction.rs:116` and `:134`), but their code does not check it, and neither does the model.
- One liquidity authority signs for the liquidity pools of the model. Nothing is assumed of the accounts passed to
  AddLiquidity and SellstSOL, except where a guard is said to be for a user whose accounts are not the pool's.
- Split and Merge are lamport moves between stake accounts and Authorize moves none. The stake program's other rules are
  one flag, `accepts`, so that the results hold whatever they are.
- Where code and comments disagree the code is followed: a delegation whose epoch had no activating stake in the
  cluster stays at zero effective stake although the comment says fully effective (`program/src/stake.rs:350-354`), and
  a fee with denominator zero takes the whole value (`program/src/processor.rs:1864-1872`).

## Model

| member | source | states |
|---|---|---|
| PoolSafety.SubtractionsNeverWrap | program/src/processor.rs:772-796 | On every run from the start along which the supply stays covered: a successful Remove, or a Withdraw of the pool's own tokens, lowers `pool_total` by exactly what leaves the mint's supply, which stays within it, and a Withdraw lowers `stake_total` by exactly the tokens' worth; a Withdraw that names another mint does both exactly if and only if it burns no more than `pool_total` |
| PoolSafety.WithdrawIsExact | program/src/processor.rs:1603-1666 | For any mint: both subtractions are exact if and only if the amount is within `pool_total`; burning the pool's tokens it always is, since amount <= supply <= `pool_total` |
| PoolSafety.WithdrawEffect | program/src/processor.rs:1603-1671 | For any mint: the burn is within the holder's balance and that mint's supply; only the pool's own mint loses supply; the split account loses the tokens' worth |
| PoolSafety.WithdrawKeeps | program/src/processor.rs:1603-1666 | A withdrawal keeps the joined invariant if and only if it burns the pool's tokens or leaves a total that covers the supply |
| PoolSafety.RemoveIsExact | program/src/processor.rs:772-796 | Removal burns at most the holder's balance, the supply and `pool_total`, so never wraps `pool_total`, and keeps the joined invariant |
| PoolSafety.RemovalExcess | program/src/processor.rs:772-796 | What a removed stake account holds beyond the whole recorded stake is worth less than one token, so `stake_total` does not wrap while a token is worth at most a lamport |
| PoolSafety.DepositKeeps | program/src/processor.rs:1310-1524 | A deposit keeps the joined invariant if and only if, naming the pool's mint, the token total fits in 64 bits, or, naming another, the new total covers the supply |
| PoolSafety.DepositEffect | program/src/processor.rs:1484-1519 | For any mint: only the named mint gains supply, and the stake account gains the deposited lamports; who receives the tokens is PoolEffects.DepositDoes |
| PoolSafety.AddKeeps | program/src/processor.rs:635-667 | Adding a validator keeps the joined invariant if and only if the token total fits in 64 bits |
| PoolSafety.InitializeKeeps | program/src/processor.rs:338-447 | Initialize establishes the joined invariant if and only if the mint it is given has no supply |
| PoolSafety.UnsignedCallKeeps | token/program/src/processor.rs:429-483 | A token instruction the pool does not sign leaves the pool's mint authority to the pool and does not raise its supply |
| PoolSafety.AdvanceKeepsInv | program/src/processor.rs:1753-1800 | Every step of the joined machine under its condition keeps the joined invariant, and a successful pool instruction only then |
| PoolSafety.RunKeepsInv | program/src/processor.rs:1753-1800 | The joined invariant holds after every such run |
| PoolSafety.SubtractionIsExact | program/src/processor.rs:772-796 | The same from any state satisfying the joined invariant |
| PoolSafety.LedgerEventKeeps | token/program/src/processor.rs:644-723 | Token instructions, creations, outside moves and purges that the pool does not make keep the joined invariant and never raise the supply of the pool's mint |
| PoolSafety.BurnShape | program/src/processor.rs:241-269 | A burn the pool makes takes at most the holder's balance and the supply, lowers that mint's supply by the amount, and touches no other mint and no account outside the token program |
| PoolSafety.MintShape | program/src/processor.rs:311-335 | A mint the pool makes raises that mint's supply by the amount and touches no other mint and no account outside the token program |
| PoolSafety.MergeShape | program/src/processor.rs:180-209 | Merge adds the source's lamports to the destination and changes no token record |
| PoolSafety.SplitShape | program/src/processor.rs:148-176 | Split takes at most what the source holds and changes no token record |
| PoolSafety.AddLiquidityKeeps | program/src/processor.rs:1077-1168 | Adding liquidity keeps the joined invariant: neither call can mint pool tokens |
| PoolSafety.SellKeeps | program/src/processor.rs:1172-1307 | Selling stSOL keeps the joined invariant |
| PoolSafety.RemoveKeepsList | program/src/processor.rs:788-791 | Removal keeps epochs ordered and validators distinct |
| PoolSafety.AddKeepsList | program/src/processor.rs:620-667 | Adding a validator keeps them, because a listed validator is refused |
| PoolSafety.UpdateListKeepsList | program/src/processor.rs:835-855 | Updating records keeps them |
| PoolSafety.ListOnEveryRun | program/src/processor.rs:803-911 | On every run the pool's epoch <= every record's epoch <= the clock, validator keys are pairwise distinct, and the fee is at most one |
| PoolSafety.GateMeansCurrent | program/src/processor.rs:586-614 | On every run an Add, Remove, Deposit or Withdraw that succeeds found the pool and every record at the clock's epoch |
| PoolSafety.WithoutKeepsOthers | program/src/processor.rs:788-791 | Dropping a validator keeps exactly the other records, and keys stay distinct |
| PoolAccounting.StakeTrackedOnEveryRun | program/src/processor.rs:897-907 | On every run along which touched stake accounts hold their recorded balances and additions fit: whenever all records share the pool's epoch, `stake_total` is the sum of recorded balances |
| PoolAccounting.AdvanceTracks | program/src/processor.rs:1512-1519 | One step keeps that equality when its condition holds, and a successful pool instruction only then |
| PoolAccounting.DepositTracks | program/src/processor.rs:1512-1519 | A deposit keeps the equality if and only if the validator's stake account held its recorded balance and the stake fits |
| PoolAccounting.WithdrawTracks | program/src/processor.rs:1664-1671 | A withdrawal, whatever mint it names, keeps the equality if and only if the stake account held its recorded balance |
| PoolAccounting.RemoveTracks | program/src/processor.rs:788-796 | A removal keeps the equality if and only if the stake account held its recorded balance |
| PoolAccounting.AddTracks | program/src/processor.rs:657-667 | Adding a validator keeps the equality if and only if the stake fits |
| PoolAccounting.UpdatePoolTracks | program/src/processor.rs:897-907 | Updating the pool balance establishes the equality if and only if the sum fits in 64 bits |
| PoolAccounting.UpdateListTracks | program/src/processor.rs:835-855 | Updating records keeps the equality: records that move leave the pool's epoch |
| PoolAccounting.RemovalOfRecordedBalanceNeverWraps | program/src/processor.rs:793-796 | On such a run a removal of an account holding its recorded balance subtracts exactly from `stake_total` |
| PoolAccounting.SumWithout | program/src/processor.rs:788-790 | With distinct keys, dropping a validator lowers the sum by exactly its balance |
| PoolPrice.SharePriceNeverFalls | program/src/processor.rs:1395-1514 | From any reachable state, along any run without removal or reward update along which the totals stay within 64 bits and above zero: S'*P >= S*P', whatever mints are named, and the recorded stake changes by exactly what went in and out |
| PoolPrice.NobodyTakesOutMoreThanWentIn | program/src/processor.rs:1603-1666 | Such a run that ends with at least its initial `pool_total` leaves at least the initial stake: what came out is at most what went in |
| PoolPrice.HoldersTakeOutNoMoreThanWentIn | program/src/processor.rs:1603-1666 | If besides every deposit and withdrawal names the pool's mint, the same holds of a run that ends with at least the initial supply: tokens in the hands of holders, not the cached total |
| PoolPrice.StepUnissued | program/src/processor.rs:1395-1666 | A step that names the pool's mint never lowers the token total by more than the supply |
| PoolPrice.StepPrice | program/src/state.rs:53-80 | No single step at the pool price lowers it |
| PoolPrice.RemovalLosesLessThanAToken | program/src/processor.rs:772-796 | Removal rounds against the pool, by less than one token's worth: S'*P <= S*P' < S'*P + S |
| PoolPrice.DepositAndWithdraw | program/src/processor.rs:1310-1676 | Depositing d and withdrawing the minted t at once returns s with 0 <= d - s <= d, and (d-s-1)*(P+t) < S if and only if the pool had stake, or no tokens, or d = 0 |
| PoolMath.DepositPrice | program/src/state.rs:53-69 | The pool keeps exactly the remainder of a deposit's division |
| PoolMath.WithdrawPrice | program/src/state.rs:73-80 | The pool keeps exactly the remainder of a withdrawal's division, and pays no more than it has |
| PoolMath.RemovePrice | program/src/state.rs:62-69 | A removal loses exactly the remainder, which is less than the stake total |
| PoolMath.DepositThenWithdraw | program/src/state.rs:53-80 | The round-trip bound in arithmetic, with the exact condition under which the lower bound holds |
| PoolMath.SellKeepsWorth | program/src/processor.rs:1266-1289 | A fee of at most one is within the value, and the sale keeps the worth of both sides plus the fee |
| PoolMath.AddLiquidityKeepsWorth | program/src/processor.rs:1853-1872 | Shares bought at wSOL per share lower no share's wSOL, and their part of the wSOL is at most what was paid; how many are bought, zero denominators included, is PoolMath.ProportionalExact |
| PoolMath.ConversionsAreExact | program/src/state.rs:53-80 | Each conversion is the exact fraction rounded down, r*d <= a*n < (r+1)*d, wherever that fits; a deposit into a pool without stake gets a token per lamport; both directions |
| PoolMath.ProportionalExact | program/src/processor.rs:1853-1872 | The liquidity pool's conversion is the whole amount at a zero denominator, and otherwise the exact fraction rounded down; both directions |
| LiquidityPool.SellMoves | program/src/processor.rs:1172-1307 | The seller gets exactly value minus fee for exactly the stSOL sold |
| LiquidityPool.SaleIsPriced | program/src/processor.rs:1265-1270 | Value and fee are exact fractions rounded down: a lamport a token when there are no pool tokens, and the whole value when the fee has no denominator |
| LiquidityPool.SellSucceedsIff | program/src/processor.rs:1172-1307 | A sale succeeds exactly between accounts of the right mints, the pool's with as much wSOL as the stSOL sold, when both transfers are allowed |
| LiquidityPool.SaleMoves | program/src/processor.rs:1233-1290 | Whatever four accounts a sale names: the amount sold moves between two, value minus fee between the other two, no other account or supply changes |
| LiquidityPool.SaleWorth | program/src/processor.rs:1172-1307 | A sale changes a fixed liquidity pool's worth W*P + T*S by exactly the value of what it gives to the pool's accounts less what it takes from them |
| LiquidityPool.SaleKeepsWorthIff | program/src/processor.rs:1172-1307 | For a fixed liquidity pool and any sale: its worth does not fall if and only if the sale covers what it takes; and for a user whose accounts are not the pool's, if and only if a guard on the two accounts passed as the pool's and the amounts holds, the pool's stSOL account passed as its wSOL account included |
| LiquidityPool.OwnSaleGains | program/src/processor.rs:1266-1289 | A sale between the pool's own accounts raises its worth by at least the fee: W'*P + T'*S >= W*P + T*S + fee*P |
| LiquidityPool.OwnSaleKeepsWorthOnEveryRun | program/src/processor.rs:1266-1289 | On every run from the start the fee is within the value, and a sale between a pool's own accounts gives W'*P + T'*S >= W*P + T*S + fee*P |
| LiquidityPool.FeeWithinValue | program/src/processor.rs:1266-1270 | `sol_value - fee_amount` does not wrap, because Initialize fixed numerator <= denominator |
| LiquidityPool.AdditionMoves | program/src/processor.rs:1077-1168 | Whatever accounts an addition names: the wSOL moves between two, the shares priced by the balance and supply read before go to the third, no other account or supply changes |
| LiquidityPool.SharesArePriced | program/src/processor.rs:1154-1165 | The first wSOL into an account buys as many shares; otherwise m shares for a lamports with m*W <= a*L < (m+1)*W |
| LiquidityPool.AddLiquiditySucceedsIff | program/src/processor.rs:1077-1168 | An addition succeeds exactly for a positive amount when the transfer, and then the mint of the shares, are allowed |
| LiquidityPool.AdditionKeepsWorthPerShareIff | program/src/processor.rs:1130-1165 | For a fixed liquidity pool and any addition: the worth of each share, both sides counted, does not fall if and only if what the pool gains pays for the shares minted of it; for a user whose accounts are not the pool's and wSOL paid into its account, if and only if m*T*S <= P*(a*L - W*m) |
| LiquidityPool.SharesCostTheirWorthIff | program/src/processor.rs:1130-1165 | The shares minted are worth at most what was paid, both sides counted, under exactly the same condition |
| LiquidityPool.AdditionToOneSidedPool | program/src/processor.rs:1130-1165 | While the pool holds no stSOL of worth, an addition paid into its wSOL account dilutes nobody |
| LiquidityPool.WorthPerShareNeverFalls | program/src/processor.rs:1077-1307 | On any mixed run of sales and additions that cover what they take, between whatever accounts, the worth of a share that exists at its start never falls |
| LiquidityPool.FairSalesKeepWorth | program/src/processor.rs:1172-1307 | On any run of such sales the pool's worth never falls, shares or none |
| LiquidityPool.AdditionKeepsWsolPerShareIff | program/src/processor.rs:1077-1168 | For a fixed liquidity pool and any addition from accounts other than its wSOL account: the wSOL per share, though not always the stSOL, does not fall if and only if the addition mints other shares, or pays into the pool's wSOL account, or that is empty, or no shares are minted |
| LiquidityPool.SharesHoldAtMostTheWsolPaid | program/src/processor.rs:1130-1165 | The wSOL part of shares bought by paying into the pool's account is at most what was paid, at the new totals |
| LiquidityPool.WsolPerShareNeverFalls | program/src/processor.rs:1077-1168 | On any run of additions, to this and other pools, each under that condition, a fixed pool's wSOL per share never falls, an empty pool included |
| PoolExamples.RemovalWraps | program/src/processor.rs:793-796 | A state satisfying the joined invariant in which removal succeeds and wraps `stake_total` |
| PoolExamples.DepositWraps | program/src/processor.rs:1512-1514 | A state satisfying it in which a deposit wraps `pool_total` below the supply and breaks it |
| PoolExamples.DepositLosesTrack | program/src/processor.rs:1516-1519 | A state satisfying it in which a deposit leaves a recorded stake that is not the sum |
| PoolExamples.EmptyStakeRoundTrip | program/src/state.rs:53-80 | Concrete numbers for which a round trip through a pool without stake returns half |
| PoolExamples.WorthlessTokensWithdraw | program/src/processor.rs:1549-1666 | A state satisfying it in which a withdrawal of a worthless mint takes nine tenths of the stake and burns none of the pool's tokens |
| PoolExamples.AdditionDilutes | program/src/processor.rs:1118-1126 | A state satisfying it in which an addition paid into the user's own look-alike account doubles the shares of a pool that gets nothing |
| PoolExamples.HonestAdditionDilutes | program/src/processor.rs:1130-1165 | A state satisfying it in which an honest addition leaves every old share its wSOL and five sixths of its worth |
| PoolExamples.SaleDrains | program/src/processor.rs:1214-1222 | A state satisfying it in which a sale into the user's own look-alike account halves a pool's worth |
| PoolExamples.SwappedSaleDrains | program/src/processor.rs:1214-1250 | A state satisfying it in which a sale that passes the pool's stSOL account as its wSOL account takes 40 stSOL for 30, or for none |
| PoolProgramModel.StakePoolProgram.ProcessInitialize | program/src/processor.rs:338-447 | A blank pool and list get the given owner, mint, fee and the clock's epoch, or the first failed check is returned and nothing changes |
| PoolProgramModel.StakePoolProgram.ProcessAddValidatorStakeAccount | program/src/processor.rs:534-673 | Mints the lamports' worth of tokens, appends a record with the lamports and the clock's epoch, and adds both totals, or fails with the first failed check and no change; a MintTo before a full list is undone |
| PoolProgramModel.StakePoolProgram.ProcessRemoveValidatorStakeAccount | program/src/processor.rs:676-800 | Burns the lamports' worth of tokens, drops the validator's records, and subtracts both totals, or fails with no change |
| PoolProgramModel.StakePoolProgram.ProcessUpdateListBalance | program/src/processor.rs:803-862 | The nested loops rewrite exactly the outdated records whose validator key was passed, as the specification does; PoolEffects.UpdateListDoes states what to |
| PoolProgramModel.StakePoolProgram.ProcessUpdatePoolBalance | program/src/processor.rs:865-911 | The loop's running total is the sum modulo 2^64, and fails on the first outdated record |
| PoolProgramModel.StakePoolProgram.ProcessDeposit | program/src/processor.rs:1310-1524 | Prices the deposit before the merge, merges, mints, adds both totals and records the validator account's new lamports, or fails with no change; PoolEffects.DepositSucceedsIff and DepositDoes state when, and to whose account |
| PoolProgramModel.StakePoolProgram.ProcessWithdraw | program/src/processor.rs:1528-1676 | Splits the tokens' worth, burns the tokens, subtracts both totals and records the remaining lamports, or fails with no change |
| PoolProgramModel.StakePoolProgram.ProcessAddLiquidity | program/src/processor.rs:1077-1168 | Transfers the wSOL and mints shares priced by the balance and supply read before, or fails with no change; LiquidityPool.SharesArePriced states how many |
| PoolProgramModel.StakePoolProgram.ProcessSellStSol | program/src/processor.rs:1172-1307 | Transfers the stSOL in and its value less the fee out, or fails with no change |
| PoolEffects.InitializeSucceedsIff | program/src/processor.rs:338-447 | Initialize succeeds exactly for a signed, unused, rent-exempt pool with a fee of at most one, a fee account of the mint, and a mint that the pool's authority may mint; its errors are true |
| PoolEffects.InitializeDoes | program/src/processor.rs:435-446 | The pool belongs to the signer, with the given mint, fee account and fee, of the clock's epoch; the list is empty; nothing else changes |
| PoolEffects.OwnerGateIff | program/src/processor.rs:572-610 | Adding and removing get past their checks exactly with the owner's signature, an up-to-date pool, its mint, and a stake account derived for the validator; each error is true |
| PoolEffects.UserGateIff | program/src/processor.rs:1374-1392 | Depositing and withdrawing get past theirs exactly with an up-to-date pool and a stake account derived for a listed validator; each error is true |
| PoolEffects.MergeDoes | program/src/processor.rs:180-209 | Merge empties the source and adds its lamports to the destination, exactly when both are stake accounts and the sum fits |
| PoolEffects.SplitDoes | program/src/processor.rs:148-176 | Split moves the lamports into an account that gets the same delegation, exactly when the source has them |
| PoolEffects.DepositSucceedsIff | program/src/processor.rs:1310-1524 | A deposit succeeds exactly past its gate, with a computable worth, a merge that is allowed, and a mint and destination the pool may mint to |
| PoolEffects.DepositDoes | program/src/processor.rs:1473-1510 | The minted tokens go to the depositor's account and nowhere else; the deposited account ends without lamports, and the validator's with all of them |
| PoolEffects.WithdrawSucceedsIff | program/src/processor.rs:1528-1676 | A withdrawal succeeds exactly past its gate, with a computable worth, a split that is allowed, and tokens the pool may burn |
| PoolEffects.WithdrawDoes | program/src/processor.rs:1602-1661 | The burned tokens leave the holder's account and nothing else; their worth in lamports leaves the validator's stake account and arrives in the withdrawer's |
| PoolEffects.RecordFollowsStake | program/src/processor.rs:1518-1521 | After a deposit or withdrawal the validator's record shows the lamports its stake account then has, and no other record changes |
| PoolEffects.AddSucceedsIff | program/src/processor.rs:534-673 | Adding succeeds exactly with the owner's signature on an up-to-date pool, for its stake account of an unlisted validator, on a list with room, with tokens the pool may mint |
| PoolEffects.AddDoes | program/src/processor.rs:634-663 | The minted tokens go to the account the owner names; the validator joins the end of the list with its lamports and the clock's epoch |
| PoolEffects.RemoveSucceedsIff | program/src/processor.rs:676-800 | Removing succeeds exactly with the owner's signature on an up-to-date pool, for its stake account of a listed validator, with tokens the pool may burn |
| PoolEffects.RemoveDoes | program/src/processor.rs:771-791 | The tokens leave the account the owner names; exactly the validator's record leaves the list, and the others keep their order |
| PoolEffects.TotalsRise | program/src/processor.rs:1511-1514 | Adding and depositing add the lamports and the minted tokens to the totals, unchecked, and change nothing else of the pool |
| PoolEffects.TotalsFall | program/src/processor.rs:793-796 | Removing and withdrawing subtract what goes out, unchecked, and change nothing else of the pool |
| PoolEffects.UpdateListDoes | program/src/processor.rs:835-855 | An outdated record whose key was passed gets that account's lamports and the clock's epoch; every other record stays, and so do keys, order, totals and accounts |
| PoolEffects.UpdatePoolDoes | program/src/processor.rs:865-911 | Updating the pool succeeds exactly when no record is older than the clock, and then the recorded stake is the sum of the balances modulo 2^64, of the clock's epoch |
| PoolEffects.RewardsReachThePool | program/src/processor.rs:849-907 | After any number of list updates in an epoch, a pool update that succeeds records the sum of what the accounts of all outdated records hold and the balances of the others: rewards reach the pool |
| PoolEffects.UpdatingAllSuffices | program/src/processor.rs:835-907 | A list update that is passed the accounts of all outdated records makes the pool update succeed |
| PoolEffects.StalePoolRefuses | program/src/processor.rs:1374-1377 | Once the clock has passed the pool's epoch, every addition, removal, deposit and withdrawal fails and changes nothing until the pool is updated |
| TokenRuns.SupplyIsConserved | token/program/src/processor.rs:469-480 | On every run a non-native mint's supply is the sum of its accounts' amounts plus what was purged, and exactly the sum on a run without purges |
| TokenRuns.RunKeepsValid | token/program/src/processor.rs:644-723 | Conservation, native backing and every record's soundness hold after every run |
| TokenRuns.NextKeepsValid | token/program/src/processor.rs:644-723 | Every event keeps them |
| TokenRuns.TransferKeeps | token/program/src/processor.rs:152-257 | Transfer keeps them, to itself, native or delegated |
| TokenRuns.MintToKeeps | token/program/src/processor.rs:429-483 | MintTo keeps them |
| TokenRuns.BurnKeeps | token/program/src/processor.rs:486-561 | Burn keeps them |
| TokenRuns.CloseKeeps | token/program/src/processor.rs:564-596 | Close keeps them, into itself too |
| TokenRuns.PurgeKeeps | token/program/src/processor.rs:564-596 | Dropping an account without lamports moves its tokens to the lost column |
| TokenRuns.InitializeAccountKeeps | token/program/src/processor.rs:55-104 | Initializing an account keeps conservation, backing and soundness |
| TokenRuns.InitializeMintKeeps | token/program/src/processor.rs:25-53 | So does initializing a mint, whose supply starts at zero |
| TokenRuns.InitializeMultisigKeeps | token/program/src/processor.rs:117-149 | So does initializing a multisig, which bounds m and n |
| TokenRuns.SetAuthorityKeeps | token/program/src/processor.rs:338-426 | So does changing an authority |
| TokenRuns.ApproveKeeps | token/program/src/processor.rs:260-307 | So does an approval |
| TokenRuns.RevokeKeeps | token/program/src/processor.rs:310-335 | So does a revocation |
| TokenRuns.ToggleFreezeKeeps | token/program/src/processor.rs:600-641 | So do freezing and thawing, of non-native accounts only |
| TokenRuns.HoldingsWithinSupply | token/program/src/processor.rs:469-480 | One account, or two together, hold at most the supply |
| TokenRuns.BurnNeverOverflows | token/program/src/processor.rs:548-558 | The overflow exit of a burn's supply debit is unreachable |
| TokenRuns.TransferNeverOverflows | token/program/src/processor.rs:228-239 | The overflow exit of a non-native transfer's credit is unreachable |
| TokenAuthority.ChangesAreAuthorized | token/program/src/processor.rs:727-761 | No instruction changes a record without the authority it names: tokens leave an account under its owner, or its delegate and then out of the allowance; lamports leave it when its close authority (or owner if none) empties it, or one for one with native tokens; owner, allowance, close authority and state under theirs; a mint's supply rises under its authority and falls only by a debit so authorized of one of its accounts |
| TokenAuthority.TransferAuthorized | token/program/src/processor.rs:197-226 | A transfer takes tokens under the source's owner, or its delegate out of the allowance, and lowers nothing elsewhere |
| TokenAuthority.BurnAuthorized | token/program/src/processor.rs:520-545 | A burn takes tokens under the holder's owner, or its delegate out of the allowance, and as many from the supply |
| TokenAuthority.MintToAuthorized | token/program/src/processor.rs:459-467 | Minting needs the mint authority |
| TokenAuthority.CloseAuthorized | token/program/src/processor.rs:575-583 | Only the close authority, or the owner if there is none, empties an account; one that is not native must hold no tokens |
| TokenAuthority.SetAuthorityAuthorized | token/program/src/processor.rs:338-426 | Each authority is changed only by its current holder |
| TokenAuthority.ToggleFreezeAuthorized | token/program/src/processor.rs:619-633 | Freezing and thawing need the mint's freeze authority |
| TokenAuthority.UnsignedAccountLosesNothing | token/program/src/processor.rs:644-723 | On every run along which no owner, delegate or close authority of an account signs, it keeps them all and loses no tokens or lamports, and if it has lamports it cannot vanish |
| TokenAuthority.MultisigOnEveryRun | token/program/src/processor.rs:132-144 | On every run an initialized multisig has 1 <= m, n <= 11, so validation never panics and succeeds exactly when the key matches and the multisig is satisfied |
| TokenAccounts.FrozenRecordIsKept | token/program/src/processor.rs:600-641 | From freeze to thaw no run changes anything in a frozen account, which is never native; one that holds tokens and lamports loses neither and cannot vanish |
| TokenAccounts.FrozenCloseNeedsZero | token/program/src/processor.rs:571-573 | Only an empty frozen account can be closed |
| TokenAccounts.FixedSupplyNeverRises | token/program/src/processor.rs:388-400 | A mint without a mint authority never gets one again and its supply never rises, on every run |
| TokenAccounts.AllowanceIsConserved | token/program/src/processor.rs:197-230 | Until the next approval or revocation, the tokens that left the account under its delegate plus the allowance left are the allowance there was |
| TokenAccounts.ApprovedAmountIsConserved | token/program/src/processor.rs:260-307 | From an approval on, the tokens that left under the delegate plus the allowance left are the approved amount |
| TokenAccounts.RevokedStaysRevoked | token/program/src/processor.rs:310-335 | After a revocation, on every run without an approval or purge of the account, it has no delegate and nothing leaves it under one |
| TokenAccounts.NoDelegateIsKept | token/program/src/processor.rs:260-335 | An account without a delegate gets none on such a run |
| TokenAccounts.AccountsOnEveryRun | token/program/src/processor.rs:89-99 | On every run an account is native iff its mint is the native mint; until closed, its lamports cover amount and reserve; no delegate means no allowance |
| TokenAccounts.TransferConservesLamports | token/program/src/processor.rs:241-251 | Transfer conserves total lamports |
| TokenAccounts.CloseConservesLamports | token/program/src/processor.rs:585-591 | Close conserves total lamports if and only if it does not close a funded account into itself |
| TokenAccounts.InstructionKeyStep | token/program/src/processor.rs:644-723 | What every instruction leaves true of any one record: frozen, fixed-supply, mint authority, and allowance used up by exactly the tokens that left under the delegate |
| OwnerValidation.CheckMultisig | token/program/src/processor.rs:739-756 | The nested loops accept exactly when the first listing of every listed member key is signed and at least m member positions are listed, none counted twice |
| OwnerValidation.CheckOwner | token/program/src/processor.rs:727-761 | The whole check, error by error |
| OwnerValidation.AcceptedMultisigHasMSignatures | token/program/src/processor.rs:739-756 | With distinct member keys an accepted multisig carries at least m different members' signatures |
| OwnerValidation.EnoughSignaturesSuffice | token/program/src/processor.rs:739-756 | And m different members that signed are enough, if no entry names a member without signing |
| TokenProgramModel.TokenProgram.ProcessInitializeMint | token/program/src/processor.rs:25-53 | A blank mint gets its decimals and authorities, or the first failed check is returned and nothing changes |
| TokenProgramModel.TokenProgram.ProcessInitializeAccount | token/program/src/processor.rs:55-104 | A blank account becomes an initialized one of an existing or the native mint, native ones holding their lamports above the reserve, or the first failed check is returned |
| TokenProgramModel.TokenProgram.ProcessInitializeMultisig | token/program/src/processor.rs:117-149 | A blank multisig gets m, the signer count cut to a byte, and the keys, with a panic past the eleventh |
| TokenProgramModel.TokenProgram.CopySigners | token/program/src/processor.rs:141-143 | The loop fills the signer array from the start, leaves the rest, and panics past its end |
| TokenProgramModel.TokenProgram.ProcessTransfer | token/program/src/processor.rs:152-257 | Moves the amount, and for native accounts as many lamports, under the owner's or delegate's authority; a self-transfer is checked and changes nothing |
| TokenProgramModel.TokenProgram.ProcessApprove | token/program/src/processor.rs:260-307 | Sets delegate and allowance under the owner's authority |
| TokenProgramModel.TokenProgram.ProcessRevoke | token/program/src/processor.rs:310-335 | Clears delegate and allowance under the owner's authority, as the specification does; TokenEffects.RevokeDoes and TokenAccounts.RevokedStaysRevoked state what that leaves |
| TokenProgramModel.TokenProgram.ProcessSetAuthority | token/program/src/processor.rs:338-426 | Changes exactly the named authority under the current one, and rejects the authority types that do not fit the record |
| TokenProgramModel.TokenProgram.ProcessMintTo | token/program/src/processor.rs:429-483 | Raises the destination and the supply by the amount under the mint authority |
| TokenProgramModel.TokenProgram.ProcessBurn | token/program/src/processor.rs:486-561 | Lowers the source and the supply by the amount under the owner's or delegate's authority |
| TokenProgramModel.TokenProgram.ProcessCloseAccount | token/program/src/processor.rs:564-596 | Credits the destination with all lamports, then empties the source, also when they are one account |
| TokenProgramModel.TokenProgram.ProcessToggleFreezeAccount | token/program/src/processor.rs:600-641 | Flips the state under the mint's freeze authority, of non-native accounts only |
| TokenProgramModel.TokenProgram.Process | token/program/src/processor.rs:644-723 | A byte string is unpacked and its handler runs, or the unpacking error is returned |
| TokenEffects.AuthorizesIff | token/program/src/processor.rs:727-761 | A key that is no multisig authorizes exactly by signing, a multisig exactly by its members' signatures; each error is true |
| TokenEffects.TransferSucceedsIff | token/program/src/processor.rs:152-257 | A transfer succeeds exactly between usable accounts of one mint, within the balance, by the delegate within its allowance or else the owner, if no sum overflows, and for the mint and decimals expected |
| TokenEffects.TransferDoes | token/program/src/processor.rs:197-255 | The amount leaves the one account and arrives in the other, with as many lamports if native; a delegate's allowance falls by it and a spent delegate is dismissed; to the same account nothing changes |
| TokenEffects.TransferFailsTruly | token/program/src/processor.rs:152-257 | The reason a transfer fails with is true |
| TokenEffects.MintToSucceedsIff | token/program/src/processor.rs:429-483 | Minting succeeds exactly into a usable, non-native account of the mint, by its authority, if neither sum overflows |
| TokenEffects.MintToDoes | token/program/src/processor.rs:469-480 | Destination and supply rise by the amount, and nothing else changes |
| TokenEffects.MintToFailsTruly | token/program/src/processor.rs:429-483 | The reason minting fails with is true |
| TokenEffects.BurnSucceedsIff | token/program/src/processor.rs:486-561 | Burning succeeds exactly from a usable, non-native account, within its balance, by the delegate within its allowance or else the owner |
| TokenEffects.BurnDoes | token/program/src/processor.rs:520-558 | Source and supply fall by the amount, with a delegate's allowance, and nothing else changes |
| TokenEffects.BurnFailsTruly | token/program/src/processor.rs:486-561 | The reason burning fails with is true |
| TokenEffects.ApproveSucceedsIff | token/program/src/processor.rs:260-307 | Approval succeeds exactly on a usable account by its owner, for the mint and decimals expected |
| TokenEffects.ApproveDoes | token/program/src/processor.rs:301-304 | The account has the given delegate and allowance, and is otherwise as it was |
| TokenEffects.RevokeSucceedsIff | token/program/src/processor.rs:310-335 | Revocation succeeds exactly on a usable account by its owner |
| TokenEffects.RevokeDoes | token/program/src/processor.rs:329-332 | The account has no delegate and no allowance; amount, owner, close authority and lamports are as they were |
| TokenEffects.SetAuthoritySucceedsIff | token/program/src/processor.rs:338-426 | An authority changes exactly on a usable account or a mint that has it, under its current holder, and an owner only to another owner |
| TokenEffects.SetAuthorityDoes | token/program/src/processor.rs:361-423 | The named authority is the new one, and nothing else changed |
| TokenEffects.SetAuthorityFailsTruly | token/program/src/processor.rs:338-426 | The reason it fails with is true |
| TokenEffects.CloseSucceedsIff | token/program/src/processor.rs:564-596 | Closing succeeds exactly on an account that is native or holds no tokens, under its close authority or else its owner |
| TokenEffects.CloseDoes | token/program/src/processor.rs:585-593 | All lamports go to the destination, and the account is left without tokens and lamports |
| TokenEffects.ToggleFreezeSucceedsIff | token/program/src/processor.rs:600-641 | Freezing and thawing succeed exactly on a non-native account of the mint in the other state, under the mint's freeze authority |
| TokenEffects.ToggleFreezeDoes | token/program/src/processor.rs:632-638 | The account is frozen, or no longer is, and is otherwise as it was |
| TokenEffects.ToggleFreezeFailsTruly | token/program/src/processor.rs:600-641 | The reason it fails with is true |
| TokenEffects.InitializeMintSucceedsIff | token/program/src/processor.rs:25-53 | A mint is initialized exactly when it is blank and rent exempt |
| TokenEffects.InitializeMintDoes | token/program/src/processor.rs:45-50 | It has the given authorities and decimals |
| TokenEffects.InitializeAccountSucceedsIff | token/program/src/processor.rs:55-104 | An account is initialized exactly when it is blank and rent exempt and its mint exists or is the native one |
| TokenEffects.InitializeAccountDoes | token/program/src/processor.rs:84-99 | It belongs to the owner, has no delegate, and holds nothing, or if native its lamports above the reserve |
| TokenEffects.InitializeMultisigSucceedsIff | token/program/src/processor.rs:117-149 | A multisig is initialized exactly when it is blank and rent exempt, with one to eleven signers and one to eleven required |
| TokenEffects.InitializeMultisigDoes | token/program/src/processor.rs:132-146 | It requires the given number of exactly the listed keys |
| TokenEffects.TransfersMove | token/program/src/processor.rs:644-723 | A transfer instruction moves its amount between the accounts it lists, and the checked one matches its decimals |
| TokenEffects.SuppliesMove | token/program/src/processor.rs:644-723 | Mint and burn instructions move the supply of the mint they list by their amount; closing leaves no lamports |
| TokenEffects.FieldsSet | token/program/src/processor.rs:644-723 | Every other instruction sets exactly what it names: owner, delegate, authority, state |
| TokenEffects.FirstTokensArrive | token/program/src/processor.rs:25-483 | From every state five events bring a mint, an account of it, and any number of tokens into being: the runs are not idle |
| TokenEffects.ClosedAccountVanishes | token/program/src/processor.rs:585-593 | A closed account vanishes, with no tokens left in it to be lost |
| TokenInstructions.UnpackIsInverseOfPack | token/program/src/instruction.rs:369-545 | A byte string unpacks to an instruction if and only if it begins with that instruction's packed form |
| TokenInstructions.AmountFormat | token/program/src/instruction.rs:473-545 | The wire format of the eight instructions with an amount: tag, eight bytes, decimals if checked |
| TokenInstructions.KeyFormat | token/program/src/instruction.rs:473-545 | The wire format of the other nine: tag, single bytes, keys |
| TokenInstructions.Pack | token/program/src/instruction.rs:473-545 | The buffer built byte by byte is the packed form |
| TokenInstructions.PackPubkeyOption | token/program/src/instruction.rs:569-577 | An optional key is appended as a tag and, if present, its bytes |
| TokenCodec.UnpackOfPackMint | token/program/src/state.rs:38-80 | Unpacking a packed mint gives it back, whatever the buffer held |
| TokenCodec.PackOfUnpackMint | token/program/src/state.rs:38-80 | Packing an unpacked mint over its own bytes changes none |
| TokenCodec.UnpackOfPackAccount | token/program/src/state.rs:125-171 | Unpacking a packed account gives it back, whatever the buffer held |
| TokenCodec.PackOfUnpackAccount | token/program/src/state.rs:125-171 | Packing an unpacked account over its own bytes changes none |
| TokenCodec.MultisigCodec | token/program/src/state.rs:215-245 | Both directions for multisigs |
| TokenCodec.MintLayout | token/program/src/state.rs:38-80 | Where each field of a packed mint sits |
| TokenCodec.AccountLayout | token/program/src/state.rs:125-171 | Where each field of a packed account sits, and the state's byte |
| TokenCodec.MultisigLayout | token/program/src/state.rs:215-245 | Where m, n, the flag and each signer sit |
| TokenCodec.OptionKeyCodec | token/program/src/state.rs:249-267 | Both directions for optional keys, although `None` leaves the body unwritten |
| TokenCodec.OptionU64Codec | token/program/src/state.rs:269-287 | Both directions for optional numbers |
| Bytes.U64IsLittleEndian | token/program/src/instruction.rs:484 | Numbers are eight bytes, the lowest first |
| TokenCodec.PackMint | token/program/src/state.rs:59-80 | Packing in place writes the mint's byte form and nothing else |
| TokenCodec.PackOptionKey | token/program/src/state.rs:249-259 | `None` writes the tag only; the body and the rest of the buffer stay |
| TokenCodec.PackOptionU64 | token/program/src/state.rs:269-279 | The same for optional numbers |
| TokenCodec.PackAccount | token/program/src/state.rs:141-171 | Packing in place writes the account's byte form and nothing else |
| TokenCodec.PackMultisig | token/program/src/state.rs:234-245 | Packing in place writes the multisig's byte form, with the loop over the signers |
| TokenCodec.UnpackMultisig | token/program/src/state.rs:215-233 | The loop that fills the signer array reads the byte form |
| ValidatorList.ListCodec | program/src/state.rs:231-284 | Serializing into any buffer and deserializing gives the list back if and only if its version is not zero or it is empty; bytes past the last record are untouched |
| ValidatorList.ListLayout | program/src/state.rs:267-312 | The version, a two-byte count, and record i at 3 + 48*i: key, balance, epoch |
| ValidatorList.VersionZeroLosesRecords | program/src/state.rs:231-264 | A concrete list of version zero loses its record |
| ValidatorList.Serialize | program/src/state.rs:267-284 | The loop writes the list's byte form into the buffer, or fails and leaves it |
| ValidatorList.Deserialize | program/src/state.rs:231-264 | The loop with moving offsets reads the byte form, error cases included |
| ValidatorList.SerializeRecords | program/src/state.rs:275-282 | The loop with its moving offset writes the records after the header and nothing beyond them |
| ValidatorList.InfoCodec | program/src/state.rs:287-312 | A record's 48 bytes read back as the record |
| ValidatorList.Find | program/src/state.rs:206-223 | Finds the first record of a validator, exactly if it is listed |
| Delegations.StakeActivatingAndDeactivating | program/src/stake.rs:225-305 | The cool-down loop terminates and computes the recursive specification |
| Delegations.StakeAndActivating | program/src/stake.rs:308-393 | The warm-up loop terminates and computes the recursive specification, wrapping where its addition does, with no epoch overflow; SettledIsEffective, AllActivatingAtFirst, NothingBeforeActivation and WarmsUpEpochByEpoch state its value at every exit |
| Delegations.WarmUp | program/src/stake.rs:343-380 | Warming up never exceeds the delegated stake, wrap or not |
| Delegations.CoolDown | program/src/stake.rs:260-297 | Cooling down never raises the effective stake |
| Delegations.WarmUpCompletes | program/src/stake.rs:364-372 | With stake activating in every epoch and no wrap, warm-up completes within as many epochs as lamports are missing |
| Delegations.CoolDownCompletes | program/src/stake.rs:273-281 | With stake deactivating in every epoch, cool-down completes within as many epochs as lamports are left |
| Delegations.StatusBounds | program/src/stake.rs:225-393 | Every exit, wrap or not: effective plus activating is the whole stake or nothing before deactivation and never more than the stake; deactivating <= effective |
| Delegations.SettledIsEffective | program/src/stake.rs:389-392 | A bootstrap stake, or one whose activation epoch is no longer in the history, is all effective, with nothing activating, up to the deactivation epoch |
| Delegations.LongDeactivatedIsGone | program/src/stake.rs:301-304 | After a deactivation epoch that is no longer in the history nothing is left |
| Delegations.IdleClusterActivatesNothing | program/src/stake.rs:350-354 | With nothing activating in the cluster at its activation epoch, a stake never becomes effective |
| Delegations.AllActivatingAtFirst | program/src/stake.rs:323-325 | In its activation epoch all of a stake is activating |
| Delegations.NothingBeforeActivation | program/src/stake.rs:319-328 | Before its activation epoch, or deactivated at once, a delegation has no stake in any state |
| Delegations.WarmsUpEpochByEpoch | program/src/stake.rs:344-380 | The effective stake from one epoch to the next: up by the share of what is missing, one lamport at least and up to the whole, while the cluster had stake activating in every epoch so far; otherwise unchanged |
| Delegations.CoolsDownEpochByEpoch | program/src/stake.rs:259-297 | From the deactivation epoch on: down by the share of what is left, one lamport at least and down to nothing, while the cluster had stake deactivating in every epoch so far; otherwise unchanged |
| Delegations.RisesIffItFits | program/src/stake.rs:330-385 | Effective stake never falls up to the deactivation epoch if and only if no addition on the way wraps, for every history and rounding |
| Delegations.RisesUntilDeactivation | program/src/stake.rs:330-385 | Without a wrap it never falls between any two epochs up to the deactivation epoch |
| Delegations.SmallSharesFit | program/src/stake.rs:364-368 | Shares that leave room for the whole stake never wrap |
| Delegations.SaturatedShareWraps | program/src/stake.rs:364-372 | A concrete delegation whose effective stake falls from five lamports to four because a saturated share wraps |
| Delegations.FallsFromDeactivation | program/src/stake.rs:243-304 | It never rises from there on, for a delegation deactivated after its activation, at once under the fix, bootstrap or empty |
| Delegations.RisesAfterDeactivationOtherwise | program/src/stake.rs:243-304 | For every other delegation some history makes it rise again |
| Delegations.OneLamportAnEpoch | program/src/stake.rs:262-283 | With stake moving in every epoch, the minimum of one lamport completes warm-up, without a wrap, and cool-down in at most as many epochs as lamports |
| WithdrawSelection.PickWithdrawAccounts | cli/src/main.rs:738-781 | The loop computes the greedy specification on the sorted accounts |
| WithdrawSelection.SortedIsStableSort | cli/src/main.rs:743-744 | The order is descending, a permutation, and stable |
| WithdrawSelection.PickSucceedsIffCovered | cli/src/main.rs:738-781 | It succeeds if and only if the capacity it sees covers the amount, and then the picks sum to the amount |
| WithdrawSelection.CapacityIsReal | cli/src/main.rs:752-756 | The capacity the loop sees is the real one plus the excess of eligible accounts below one SOL, which is zero without such an account and otherwise over 2^64 lamports less one SOL |
| WithdrawSelection.FirstAreBest | cli/src/main.rs:743-744 | The first accounts in descending order hold the most above one SOL of any as many |
| WithdrawSelection.PickIsRightIff | metacli/src/main.rs:1150-1157 | For amounts up to 2^64 lamports less one SOL, success means the accounts hold the amount above one SOL each if and only if no eligible account is below one SOL or the others cover it; beyond that, also when the amount exceeds the real capacity and the excess |
| WithdrawSelection.PicksAreSoundIff | cli/src/main.rs:750-769 | When picking a positive amount succeeds, no pick takes an account below one SOL if and only if no eligible account is below one SOL or the others cover the amount |
| WithdrawSelection.HalfASolIsOverdrawn | cli/src/main.rs:752-756 | A concrete account with half a SOL that is picked for a whole one |
| WithdrawSelection.PicksDrainToOneSol | cli/src/main.rs:750-769 | For a positive amount the accounts hold above one SOL each: the picks are the largest eligible accounts, none taken below one SOL, all but the last drained to it |
| WithdrawSelection.NoSmallerSelection | cli/src/main.rs:743-769 | For such an amount no smaller collection of eligible accounts holds it above one SOL each |
| WithdrawSelection.PicksAreDistinct | cli/src/main.rs:750-769 | Accounts with different keys are picked at most once |
| WithdrawSelection.PicksHoldMoreThanMinimum | cli/src/main.rs:750-756 | Every pick is one of the accounts, holds more than the minimum balance, and takes at most the amount asked for |
| WithdrawSelection.AboveMinimumIsPicked | cli/src/main.rs:750-769 | A single account that holds the amount above one SOL is picked exactly above the minimum balance |

## Left out

- The Solana runtime: program-derived addresses, sysvar decoding, rent maths and `invoke`. Checks of addresses, program ids and sysvars only reject and are omitted; `rentExempt` and `derived` stand for two of them.
- The stake program, whose source is not part of this model, beyond the lamport moves of Split and Merge.
- Accounts owned by other programs whose bytes would decode as token records.
- process_initialize unpacks records without checking their length first; a record of another length is rejected here.
- Purged accounts: their tokens are kept in a history variable, since on chain they are gone and the supply is then more than the sum of what is left.
- PoolProgramModel.StakePoolProgram.ProcessUpdateListBalance: it matches passed accounts against the validator's own key, as the code does, so nothing is claimed about the stake account's lamports after an update.
- PoolSafety.SubtractionsNeverWrap: holds on runs whose Initialize gets a mint without supply, whose token totals fit in 64 bits, and whose deposits and withdrawals of other mints leave the supply covered; the code checks none of these, and InitializeKeeps, AddKeeps, DepositKeeps and WithdrawKeeps show that each is needed.
- PoolPrice.SharePriceNeverFalls: holds on runs whose totals stay within 64 bits, which the code does not check.
- LiquidityPool.WorthPerShareNeverFalls: holds on runs of sales and additions that cover what they take, which the code does not check; SaleKeepsWorthIff and AdditionKeepsWorthPerShareIff show that each must.
- LiquidityPool.WsolPerShareNeverFalls: counts the wSOL alone, on runs of additions that pay the pool for its shares, which the code does not check.
- Delegations.StakeAndActivating: the floating-point share, after its cut to 64 bits, is any function of its operands, so rounding detail is not captured.
- OwnerValidation.CheckMultisig: m <= n is not claimed, since only the client's builder enforces it (token/program/src/instruction.rs:698-703).
- WithdrawSelection.PickWithdrawAccounts: the library sort is a function, and the picked account's other fields are left out; the result is not composed with the on-chain Withdraw, which takes pool tokens.
- Byte forms of the stake pool record and of its instructions, which are struct copies that depend on memory layout.
- process_create_validator_stake_account, process_set_staking_auth and process_set_owner, which leave the totals unchanged.
- check_stake_activation, since the one on-chain use of the warm-up arithmetic is commented out (program/src/processor.rs:914-940).
- The rest of the command-line tools, logging, error printing, instruction builders and the C header.
