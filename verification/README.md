# Tapioca lending engine: models and proofs

A Dafny 4.11 model of the shared parts of the Tapioca lending engine, with proofs. `dafny verify dfyconfig.toml`
checks all of it.

- **Risk arithmetic** (`Market`, `ClosingFactorProperties`, `RiskProperties`, `RewardProperties`). The solvency
  test, the borrowing limit, TVL, the closing factor, the liquidator's reward and the rounded ratio compute nearly
  the same quantities with the divisions in different orders; the lemmas say exactly how far they agree. Solidity's
  signed division truncates and is written out as `TruncDiv`; the scaled liquidation rate can exceed one, so the zero
  and the negative denominator are covered. The functions use unbounded integers; `ClosingFactor256` is the closing
  factor with every 256-bit check; at precision 5, for totals in uint128 and fees up to 1e5, it is proved equal to the
  unbounded one except where the collateral value times the rate overflows.
- **Configuration** (`MarketConfig`). The two owner calls as a class over the storage fields, what every run of them
  keeps, and exactly which configurations they can reach.
- **Liquidation sizing** (`Liquidation`, `LiquidationProperties`). `MarketHelper` passes `1e5` where the closing factor
  takes a power of ten, although the constant meant is `FEE_PRECISION_DECIMALS = 5`. `HelperSize` is the literal call and always
  reverts; `Size` is the computation at 5, which is what `BBLiquidation` and `SGLLiquidation` run on chain.
- **Flash minting** (`Usdo`, `FlashLender`, `TokenCalls`, `FlashProperties`). The token and the flash loan helper as classes, and as a
  transition system whose actions form call trees: a borrower's callback is any list of further actions, calls to other
  contracts nest, and a revert restores the world below it. The loan follows ERC-3156, "Lender Specification".
- **Registry** (`Registry`, `RegistryCalls`, `RegistryViews`, `Penrose`). Master contracts, clone lists and the BigBang list under push
  and swap-and-pop, and the loops that list markets and sum their debt.
- **Token ledger** (`MarketLedger`, `LedgerProperties`). Transfers, approvals, both kinds of permit with their shared
  nonce (EIP-2612, "Specification"), and the allowance checks `Market` makes.

A method's contract equates the new storage with a function of the old one, a revert being "unchanged and false"; the lemmas
are about those functions.

What the proofs show to be false, or needed, each with a concrete input:

- The liquidation start and the solvency test disagree at two debts, the start itself and one unit above it
  (`StartAgreementIsSharp`, `SolventUserSized`), and further exactly when the exchange rate precision is not a multiple
  of 1e5 (`WholePrecisionExactly`, `BelowStartInsolvent`).
- The closing factor presumes that collateral is seized at the liquidation multiplier; liquidations seize at the bonus.
  A valid configuration allows a scaled rate of one or more (`ValidAllowsEitherSign`), but what decides, up to
  roundings, whether a liquidation helps is the rate scaled by the bonus, `PaidRate` (`LiquidationDirection`): it can
  harm with the formula's own scaled rate below one (`LiquidationCanHarm`), and help with that rate above one
  (`LiquidationCanHelp`).
- The bad debt guards do not keep a liquidation from leaving debt parts with no collateral (`LeavesBadDebtExactly`,
  `BadDebtLeft`).
- A registering call on an address that is already a market, a bare `deploy`, and unregistering a BigBang market under
  another type each break the registry, and nothing else does (`StepKeepsInvExactly`, `StaleEntryCountsTwice`).
- A burner who burns USDO's own balance, or a helper that is replaced by an outside account, breaks the cover of the fees
  (`OwnBurnExactly`, `CallKeepsCoverExactly`, `OutsideHelperInventsFees`).

`unregisterContract`'s comment says its type 2 removes an Origins market; on one that was added by `addOriginsMarket` only, it
always reverts (`UnregisterExactly`), and the model follows the code.

## Model

| member | source | states |
|---|---|---|
| ClosingFactorProperties.DefinedExactly | contracts/markets/Market.sol:317-349 | the closing factor fails exactly when there are no debt parts, or the debt reached the start and the scaled rate is exactly one; otherwise it never exceeds the debt |
| ClosingFactorProperties.QuotientsFloor | contracts/markets/Market.sol:328-339 | the liquidation start and the scaled rate are the floored quotients at the precision of the call |
| ClosingFactorProperties.ClosedForm | contracts/markets/Market.sol:334-348 | for either sign of the denominator, the truncated signed quotient is the floored quotient of magnitudes, capped by the debt |
| ClosingFactorProperties.Tight | contracts/markets/Market.sol:328-348 | at precision 5 with the scaled rate below one, and if collateral is seized at the multiplier, a repayment does not overshoot the threshold if and only if it is at most the closing factor; short of the whole debt the user ends less than one unit above the threshold, and one unit more clears it |
| ClosingFactorProperties.AnswerHelpsExactly | contracts/markets/Market.sol:328-348 | at precision 5 and for any debt above the start, if collateral is seized at the multiplier, repaying the returned closing factor brings the user nearer the threshold exactly when the scaled rate is below one and the excess is at least the gap, and moves the user away exactly when the scaled rate is above one and the excess is at least the gap |
| ClosingFactorProperties.ValidAllowsEitherSign | contracts/markets/Market.sol:273-292 | valid configurations with a scaled rate above one, and of exactly one, exist |
| ClosingFactorProperties.ZeroExactly | contracts/markets/Market.sol:332-348 | the closing factor is zero if and only if the debt is at most the start |
| ClosingFactorProperties.Monotone | contracts/markets/Market.sol:317-349 | non-decreasing in debt parts and non-increasing in collateral value, for either sign of the denominator |
| ClosingFactorProperties.LargeExponentReverts | contracts/markets/Market.sol:329-342 | in 256-bit arithmetic every exponent from 78 on reverts, on every input |
| ClosingFactorProperties.CheckedAgrees | contracts/markets/Market.sol:317-349 | where the 256-bit computation returns, for a user's share of uint128 totals, it returns the unbounded result in spite of the wrapping int256 conversions |
| ClosingFactorProperties.CheckedExactly | contracts/markets/Market.sol:317-349 | with fees up to 1e5, at precision 5, the 256-bit computation equals the unbounded one, failures included, and differs only in reverting exactly when the collateral value times the rate overflows |
| RiskProperties.ValueThenFactor | contracts/markets/Market.sol:476-516 | valuing collateral before applying a rate factor loses at most one unit against applying it before the only division |
| RiskProperties.SolventExactly | contracts/markets/Market.sol:489-503 | for both rates, a user with debt and collateral is solvent if and only if parts times total debt times rate stays below the collateral side plus one unit, times the total parts; without debt always, without collateral never, and without parts to divide by the test fails |
| RiskProperties.LimitAgreesWithSolvency | contracts/markets/Market.sol:476-503 | the borrowing limit is the floored quotient; a debt below it passes the borrowing solvency test and a debt above it does not |
| RiskProperties.StartAgreesWithSolvency | contracts/markets/Market.sol:326-332 | a debt below the liquidation start is solvent for liquidation when 1e5 divides the rate precision, and a solvent debt is at most one above the start |
| RiskProperties.StartAgreementIsSharp | contracts/markets/Market.sol:489-503 | both halves are sharp: a solvent user one unit above the start and an insolvent one exactly at it |
| RiskProperties.WholePrecisionExactly | contracts/markets/Market.sol:499-502 | every debt below the start is solvent, in all markets with a given rate precision, if and only if 1e5 divides that precision |
| RiskProperties.BelowStartInsolvent | contracts/markets/Market.sol:499-502 | at every other precision and in every valid configuration with the full liquidation rate, an insolvent user below the start |
| RiskProperties.TvlExactly | contracts/markets/Market.sol:359-377 | the amount to solvency is the positive part of the difference of the two solvency sides, each divided by the rate |
| RiskProperties.TvlDefinedExactly | contracts/markets/Market.sol:359-377 | TVL is all zero without debt, fails exactly without a rate or without parts, and its minimum and maximum are the two floored quotients |
| RiskProperties.TvlAgreesWithSolvency | contracts/markets/Market.sol:373-375 | solvent users need nothing, and users who need nothing miss the solvency test by less than one unit of the asset |
| RiskProperties.TvlBoundIsSharp | contracts/markets/Market.sol:359-377 | at every rate an insolvent user misses by the largest allowed amount and is told to add nothing |
| RiskProperties.MinTvlAgreesWithLimit | contracts/markets/Market.sol:476-516 | the minimum TVL and the borrowing limit differ by at most one unit |
| RewardProperties.RewardExactly | contracts/markets/Market.sol:518-541 | the reward is defined, zero exactly when no debt, no start TVL or a debt below it, otherwise within its bounds, the maximum at the start, and the minimum exactly from the maximum TVL on |
| RewardProperties.RewardInterpolates | contracts/markets/Market.sol:531-538 | between the start and the maximum TVL the reward is the maximum less the floored share of the reward range that belongs to the floored percentage of the way the debt has come |
| RewardProperties.RewardDefinedExactly | contracts/markets/Market.sol:518-529 | in any configuration the reward fails exactly without a rate, or for backed debt without parts to divide by |
| RewardProperties.InterpolationInRange | contracts/markets/Market.sol:531-538 | the interpolated reward is strictly above the minimum before the clamp, so the clamp is redundant |
| RewardProperties.RewardInEveryReachableConfig | contracts/markets/Market.sol:253-265 | the bounds hold in every configuration a run of owner calls reaches |
| RewardProperties.RewardFalls | contracts/markets/Market.sol:526-540 | more debt on the same collateral never earns the liquidator more |
| RewardProperties.RatioRoundsHalfUp | contracts/markets/Market.sol:555-562 | the ratio is the scaled quotient rounded half up, for every numerator and every nonzero denominator |
| RewardProperties.RatioAboveOneExactly | contracts/markets/Market.sol:555-562 | the ratio exceeds one whole unit exactly when the amount passes the limit by half a step |
| RewardProperties.AllowanceExactly | contracts/markets/Market.sol:543-562 | it fails exactly without a rate, is the floored share of the ratio, and zero when nothing is borrowed or the limit is zero |
| RewardProperties.AllowanceWithinShares | contracts/markets/Market.sol:543-553 | borrowing within the limit never asks for more than the user's collateral shares |
| RewardProperties.AllowanceIsProportional | contracts/markets/Market.sol:543-553 | the shares asked for are the amount's proportion of the limit, up to half a step of the ratio and one floor |
| MarketConfig.ConfigStore.SetMarketConfig | contracts/markets/Market.sol:215-293 | the storage becomes the updated configuration, or is unchanged when a check fails, all earlier writes undone |
| MarketConfig.ConfigStore.SetLiquidationMaxSlippage | contracts/markets/Market.sol:197-201 | the slippage is stored when below 1e5 and the call reverts otherwise |
| MarketConfig.UpdateExactly | contracts/markets/Market.sol:229-292 | in any configuration the call reverts exactly when one of its arguments fails its check, and otherwise stores every argument that is not empty |
| MarketConfig.ValidUpdateExactly | contracts/markets/Market.sol:229-292 | in a valid configuration the call goes through if and only if the result is valid as a whole, the new minimum reward is below the stored maximum and the new rate at most the stored liquidation rate |
| MarketConfig.BelowFullValueExactly | contracts/markets/Market.sol:273-282 | the check on the borrowing rate admits exactly the rates at which every borrower within the rate stays covered once the multiplier is added to the debt |
| MarketConfig.SlippageExactly | contracts/markets/Market.sol:197-201 | the slippage is stored if and only if it is below 1e5, and no other field changes |
| MarketConfig.RunKeepsValid | contracts/markets/Market.sol:197-293 | every run from a valid configuration keeps the reward, rate, fee, bonus and slippage bounds, the multiplier, and every nonzero field nonzero |
| MarketConfig.OneCallSuffices | contracts/markets/Market.sol:253-292 | some single call reaches a target if and only if its minimum reward is below the stored maximum and its rate at most the stored liquidation rate |
| MarketConfig.TwoCallsSuffice | contracts/markets/Market.sol:253-292 | two calls always reach it in spite of the order of the checks |
| MarketConfig.ReachableExactly | contracts/markets/Market.sol:197-293 | a configuration is reachable by some run if and only if it is valid, has the same multiplier and clears no field |
| Conversions.ToElasticRoundsUp | contracts/markets/MarketHelper.sol:303 | converting debt parts with rounding up gives exactly the rounded-up quotient |
| Conversions.ToBaseRoundsUp | contracts/markets/MarketHelper.sol:303-316 | the other conversion rounded up is the rounded-up quotient too |
| Conversions.ConversionsFloor | contracts/markets/MarketHelper.sol:295-342 | parts, debt, shares and amounts convert by floored quotients, unchanged when there is nothing to divide by |
| LiquidationProperties.HelperAlwaysReverts | contracts/markets/MarketHelper.sol:286-300 | with 1e5 passed as the exponent every call reverts |
| LiquidationProperties.SucceedsExactly | contracts/markets/MarketHelper.sol:294-347 | a liquidation goes through if and only if the collateral covers the closing factor, the repayment removes a part, and the collateral covers the bonus or else exceeds the whole debt and meets the liquidator's nonzero minimum |
| LiquidationProperties.FailsExactly | contracts/markets/MarketHelper.sol:305-347 | bad debt, solvent and insufficient bonus are each reported if and only if their own condition holds, over all branches |
| LiquidationProperties.SizesExactly | contracts/markets/MarketHelper.sol:305-347 | the repayment is the closing factor up to the limit, the parts are all or the floored worth of it, and the shares are all in the thin branch and otherwise the amount with its bonus, floored at each conversion |
| LiquidationProperties.BonusFloors | contracts/markets/MarketHelper.sol:319-321 | the amount with its bonus is the floored product with one plus the bonus |
| LiquidationProperties.NotEnoughCollateralUnreachable | contracts/markets/MarketHelper.sol:340-346 | the revert for too little collateral never happens, for any closing factor and any vault ratio |
| LiquidationProperties.PanicsExactly | contracts/markets/MarketHelper.sol:295-343 | arithmetic fails exactly when the closing factor is undefined or there is no debt: no underflow or division by zero in the bonus |
| LiquidationProperties.ClampNeverFires | contracts/markets/MarketHelper.sol:302-304 | the clamp to the current debt changes nothing |
| LiquidationProperties.WithinPosition | contracts/markets/MarketHelper.sol:306-317 | something is repaid, within the limit, the closing factor and the debt; at least one and at most all of the user's parts are removed, and at most the user's shares seized |
| LiquidationProperties.SeizureIsFair | contracts/markets/MarketHelper.sol:319-347 | the seized shares are worth at most the repayment with its configured bonus; in the thin branch the bonus is at least the minimum and strictly below the configured one |
| LiquidationProperties.OnlyAboveStart | contracts/markets/MarketHelper.sol:299-317 | only debts above the start are sized, and a user the solvency test calls solvent only at exactly one unit above it |
| LiquidationProperties.SolventUserSized | contracts/markets/MarketHelper.sol:299-347 | such a solvent user exists |
| LiquidationProperties.LeavesBadDebtExactly | contracts/markets/MarketHelper.sol:306-347 | parts remain exactly when less than the whole rounded-up debt is repaid; they remain without collateral exactly when, besides, the thin branch was taken or the bonus took the last share |
| LiquidationProperties.BadDebtLeft | contracts/markets/MarketHelper.sol:306-347 | a liquidation that takes all collateral and leaves 50 of 1000 debt parts |
| LiquidationProperties.EveryLiquidationFollowsLeftover | contracts/markets/MarketHelper.sol:294-347 | every liquidation, at any limit, branch and rates, ends less than one unit plus 1e-5 of the repayment above what the linear account at the paid bonus predicts for the threshold of the remaining collateral |
| LiquidationProperties.EveryLiquidationKeepsLeftover | contracts/markets/MarketHelper.sol:294-347 | outside the thin branch every liquidation also ends no lower than that account predicts, but for one unit and a bound on the share and value roundings |
| LiquidationProperties.LiquidationDirection | contracts/markets/bigBang/BBLiquidation.sol:191-239 | which way a liquidation moves the debt less the start: nearer once the repayment times one minus the paid rate outweighs the roundings, away outside the thin branch once the repayment times the paid rate's excess over one does, and in the thin branch nearer exactly when more than the old start is repaid |
| LiquidationProperties.LiquidationCanHarm | contracts/markets/bigBang/BBLiquidation.sol:191-239 | in a valid configuration with the formula's scaled rate below one, a liquidation that raises the distance from 6 to 29 |
| LiquidationProperties.LiquidationCanHelp | contracts/markets/bigBang/BBLiquidation.sol:191-239 | in a valid configuration with the formula's scaled rate above one, a liquidation that brings the user below the start |
| LiquidationProperties.EveryLiquidationAfterUpdate | contracts/markets/bigBang/BBLiquidation.sol:241-275 | the upper bound after the position and the totals are updated, up to the worth of one debt part |
| LiquidationProperties.OthersKeepDebt | contracts/markets/bigBang/BBLiquidation.sol:191-275 | everybody else keeps their parts, and any holder of remaining parts owes at most the old debt and at least the old debt less the rounded-up worth of one part |
| LiquidationProperties.DebtFallsByRepayment | contracts/markets/bigBang/BBLiquidation.sol:191-275 | the liquidated user's debt falls by the repayment, up to the rounded-up worth of one part either way |
| LiquidationProperties.FullLiquidationReachesThreshold | contracts/markets/MarketHelper.sol:294-347 | repaying the closing factor, in either branch, leaves the debt less than two units plus 1e-5 of the repayment above the threshold of the remaining collateral, and at most one unit with an exact scaled rate; in the thin branch the bounds are one unit sharper and an exact scaled rate repays the whole floored debt |
| LiquidationProperties.FullLiquidationNearsThreshold | contracts/markets/bigBang/BBLiquidation.sol:241-275 | the same bounds after the position and the totals are updated, up to the worth of one debt part, and no subtraction underflows |
| LiquidationProperties.FullLiquidationExists | contracts/markets/MarketHelper.sol:286-348 | a liquidation that meets these conditions exists, with its exact result |
| Usdo.UsdoToken.MintCall | contracts/usdo/Usdo.sol:248-253 | supply and the receiver's balance grow by the amount, for a minter and while not paused; otherwise nothing changes |
| Usdo.UsdoToken.BurnCall | contracts/usdo/Usdo.sol:260-265 | supply and the holder's balance shrink by the amount, for a burner and while not paused; otherwise nothing changes |
| Usdo.UsdoToken.ExtractFeesCall | contracts/usdo/Usdo.sol:302-310 | the smaller of the fees and the token's own balance moves to the owner and leaves the fees |
| TokenCalls.TransferExactly | contracts/usdo/USDOFlashloanHelper.sol:138 | a USDO transfer goes through if and only if neither account is zero and the sender holds the amount, and moves exactly that |
| TokenCalls.TransferFromExactly | contracts/usdo/USDOFlashloanHelper.sol:138-172 | a USDO transfer by a spender needs, besides, an allowance that covers it; it moves exactly the amount and uses exactly that allowance up by it unless infinite |
| TokenCalls.MintExactly | contracts/usdo/Usdo.sol:248-253 | a mint goes through if and only if the token runs, the caller is a minter, the receiver is nonzero and the supply has room; it credits exactly the receiver |
| TokenCalls.BurnExactly | contracts/usdo/Usdo.sol:260-265 | a burn goes through if and only if the token runs, the caller is a burner and the nonzero holder has the amount; it debits exactly the holder |
| TokenCalls.AddFeeExactly | contracts/usdo/Usdo.sol:272-275 | fees are registered if and only if the registered helper does it and they fit |
| TokenCalls.ExtractExactly | contracts/usdo/Usdo.sol:302-310 | the owner always gets what there is; fees beyond the token's own balance stay registered |
| TokenCalls.PauseExactly | contracts/usdo/Usdo.sol:283-289 | the owner toggles the pause, and setting it to what it is reverts |
| TokenCalls.SetHelperExactly | contracts/usdo/Usdo.sol:295-297 | the owner, and nobody else, replaces the helper |
| TokenCalls.SetRolesExactly | contracts/usdo/Usdo.sol:318-332 | the owner, and nobody else, gives or takes a role of exactly the named account |
| TokenCalls.LenderApproveExactly | contracts/usdo/USDOFlashloanHelper.sol:103-106 | an approval on the helper sets exactly one allowance, and needs two nonzero accounts |
| TokenCalls.SetLoanTermsExactly | contracts/usdo/USDOFlashloanHelper.sol:186-199 | the helper's owner, and nobody else, sets the cap, and the fee below the whole amount |
| FlashLender.Helper.LoanTo | contracts/usdo/USDOFlashloanHelper.sol:116-177 | the two contracts end in the world the flash loan of the transition system gives, or exactly where they were if it reverts |
| FlashLender.Helper.Run | contracts/usdo/USDOFlashloanHelper.sol:76-199 | the same for every action of a call tree |
| FlashLender.Helper.SpendAllowanceOf | contracts/usdo/USDOFlashloanHelper.sol:204-220 | a finite allowance shrinks by the amount, an infinite one stays, too small a one reverts |
| FlashProperties.BeginLoanExactly | contracts/usdo/USDOFlashloanHelper.sol:76-133 | a loan begins if and only if the token is USDO, running and at a nonzero receiver, the receiver borrows for itself or allows the amount, none is entered, the amount is at most the supply and the cap, fee product, supply and fees fit, and the helper mints and is the registered one |
| FlashProperties.RunsInOrder | contracts/usdo/USDOFlashloanHelper.sol:116-177 | calls by outside code run one after the other, and one that reverts leaves the world and the effects as they were |
| FlashProperties.CallbackIsVisited | contracts/usdo/USDOFlashloanHelper.sol:129-138 | the worlds code inside a loan sees are exactly the begun world with its fee registered, the one after each of the callback's actions, and those inside these actions |
| FlashProperties.ExecKeepsBacked | contracts/usdo/Usdo.sol:248-310 | balances sum to the supply over every call tree, whatever its senders, burns, helpers and reverts |
| FlashProperties.ExecAccounts | contracts/usdo/Usdo.sol:248-310 | over every call tree the supply changes by role mints less role burns, and fees plus fees paid out by the fees registered; no loan is left behind |
| FlashProperties.ExecKeepsInv | contracts/usdo/USDOFlashloanHelper.sol:116-177 | the invariant survives every action and holds in every world that code inside a callback sees, reverted or not |
| FlashProperties.EveryRunIsSafe | contracts/usdo/Usdo.sol:272-310 | from deployment on, in every world any code sees, also inside callbacks: balances sum to the supply, at most one loan, each within the smaller of supply and cap, the fees within USDO's own balance plus the fee in flight, fees stored plus fees extracted equal to the fees registered, and the supply equal to role mints less burns plus the loan in flight |
| FlashProperties.VisitsKeepBooks | contracts/usdo/Usdo.sol:248-310 | the two equations alone hold in all those worlds for every tree, whatever its senders, burns and helpers |
| FlashProperties.CallbackSeesOneLoan | contracts/usdo/USDOFlashloanHelper.sol:129-130 | a flash loan inside a callback reverts, and every world the callback sees has exactly the outer loan |
| FlashProperties.CompletedLoan | contracts/usdo/USDOFlashloanHelper.sol:116-177 | a completed loan changes the supply by its callback's role mints and burns only, pays out exactly the amount, takes back the amount and the fee, uses up both allowances by what was taken, and leaves every other balance, the helper's included, as the callback left it |
| FlashProperties.RepaymentExactly | contracts/usdo/USDOFlashloanHelper.sol:138-172 | the repayment goes through if and only if the token runs, the helper may burn, and the receiver holds and has approved the amount and the fee together |
| FlashProperties.LoanCompletesExactly | contracts/usdo/USDOFlashloanHelper.sol:116-177 | a flash loan with any callback goes through if and only if it may begin, the callback returns the agreed value, and the world it leaves allows the repayment |
| FlashProperties.LoanCompletes | contracts/usdo/USDOFlashloanHelper.sol:116-177 | loans do complete from a consistent world, with a callback that approves the repayment |
| FlashProperties.ExtractPaysOwner | contracts/usdo/Usdo.sol:302-310 | extraction moves the smaller of the fees and USDO's own balance to the owner, off the fees, and touches no other balance |
| FlashProperties.OwnBurnExactly | contracts/usdo/Usdo.sol:260-265 | burning USDO's own balance keeps the fees covered exactly while the rest covers them |
| FlashProperties.CallKeepsCoverExactly | contracts/usdo/Usdo.sol:248-310 | for any burner and any helper, a successful outside call keeps the fees covered if and only if a burn of USDO's own balance leaves enough and a registered fee is already there |
| FlashProperties.OutsideHelperInventsFees | contracts/usdo/Usdo.sol:272-297 | a helper replaced by an outside account registers fees nobody paid |
| FlashProperties.UnprivilegedKeepsSupply | contracts/usdo/Usdo.sol:248-332 | over every tree whose senders hold no role, flash loans and callbacks included, the supply, the roles and the pause end as they were and nothing is paid out |
| Penrose.PenroseContract.UnregisterMarket | contracts/Penrose.sol:456-481 | the storage becomes the registry without the market, or is unchanged when a search fails |
| Penrose.PenroseContract.RegisterBigBangMarket | contracts/Penrose.sol:521-534 | the deployed clone is a market, listed under its master and as a BigBang one, or nothing changes |
| Penrose.PenroseContract.RegisterSingularityMarket | contracts/Penrose.sol:489-501 | the deployed clone is a market listed under its master, or nothing changes |
| Penrose.PenroseContract.AddBigBangMarket | contracts/Penrose.sol:540-547 | an unregistered address becomes a listed BigBang market, or nothing changes |
| Penrose.PenroseContract.AddSingularityMarket | contracts/Penrose.sol:507-513 | an unregistered address becomes a listed market, or nothing changes |
| Penrose.PenroseContract.FindIndex | contracts/Penrose.sol:608-616 | the first index of the address, or the revert exactly when it is not listed |
| Penrose.PenroseContract.GetAllMasterContractClones | contracts/Penrose.sol:657-694 | the two passes fill a fresh array with the concatenated clone lists, within bounds |
| Penrose.PenroseContract.ViewTotalDebt | contracts/Penrose.sol:229-241 | the loop returns the total over the listed and registered markets |
| Penrose.PenroseContract.MintOpenInterestDebt | contracts/Penrose.sol:318-338 | the loop's sum is minted on the token and handed to twTap; if a market refuses, the mint fails or twTap does not take it, neither the markets nor the token change |
| Penrose.MintGrowsSupplyExactly | contracts/Penrose.sol:332-338 | under the registry invariant the supply and twTap's balance grow by exactly the total debt shown before, no other balance, allowance, fee or role changes and no allowance stays, if and only if there is no debt or the token runs, lets Penrose mint, has room and twTap accepts |
| Registry.StepKeepsInvExactly | contracts/Penrose.sol:419-554 | a call that succeeds keeps the registry consistent if and only if it is safe |
| Registry.UnregisterExactly | contracts/Penrose.sol:456-481 | unregistering goes through if and only if the address is a registered market listed where its type says |
| RegistryCalls.UnregisterEffects | contracts/Penrose.sol:456-481 | in any state: it goes through if and only if the lists it searches hold the market; each of them loses its first entry of it, the last entry moving into the hole, and flag and master are cleared while an Origins flag stays |
| RegistryCalls.RemoveExactly | contracts/Penrose.sol:465-478 | the search fails exactly without an entry; otherwise the first one is removed and only the last entry changes place |
| RegistryCalls.DeployExactly | contracts/Penrose.sol:260-296 | a bare deployment appends the clone to its master's list and records the master without making it a market |
| RegistryCalls.RegisterSingularityExactly | contracts/Penrose.sol:489-501 | goes through if and only if the master is registered and nonzero and the clone was created, has code and was initialised; flag, master and list gain exactly the clone |
| RegistryCalls.AddSingularityExactly | contracts/Penrose.sol:507-513 | goes through if and only if the master is registered and the address is no market yet; flag, master and list gain exactly the address |
| RegistryCalls.RegisterBigBangExactly | contracts/Penrose.sol:521-534 | the same for a BigBang registration, which also appends to the BigBang list |
| RegistryCalls.AddBigBangExactly | contracts/Penrose.sol:540-547 | the same for an existing BigBang market |
| RegistryCalls.RegisterMasterExactly | contracts/Penrose.sol:419-450 | a master contract is appended to its own kind's list if and only if it is not registered for that kind yet |
| RegistryCalls.AddOriginsExactly | contracts/Penrose.sol:549-554 | an Origins market is flagged and listed if and only if it was never flagged, and becomes no other market |
| Registry.EveryMarketListedOnce | contracts/Penrose.sol:456-547 | after every safe run each market occurs exactly once over all clone lists, under its own master, and the BigBang list is duplicate-free and exact |
| Registry.OriginsNeverReturn | contracts/Penrose.sol:469-473 | over every run an Origins market once flagged can never be added again |
| RegistryViews.SingularityMarketsExactly | contracts/Penrose.sol:207-209 | lists, without duplicates, exactly the markets whose master is a registered Singularity one |
| RegistryViews.BigBangListsAgreeExactly | contracts/Penrose.sol:213-215 | the clone-based list and allBigBangMarkets agree exactly when no Singularity market's master is also a BigBang one |
| RegistryViews.TotalDebtExactly | contracts/Penrose.sol:229-241 | in any order left by swap-and-pop, the total debt is the sum over the registered BigBang markets |
| RegistryViews.ConsumeIsSetSum | contracts/Penrose.sol:318-330 | whatever the list repeats, minting consumes each registered listed market once and no other |
| RegistryViews.MintTakesTotalDebt | contracts/Penrose.sol:318-338 | minting takes exactly the total debt shown before it and leaves none |
| RegistryViews.StaleEntryCountsTwice | contracts/Penrose.sol:465-478 | a BigBang market unregistered under type 0 and added again is counted twice by the view |
| MarketLedger.MarketToken.TransferCall | contracts/markets/MarketERC20.sol:94-108 | the new ledger of a transfer, or no change on a revert |
| MarketLedger.MarketToken.TransferFromCall | contracts/markets/MarketERC20.sol:115-136 | the new ledger of a transfer by a spender, or no change on a revert |
| MarketLedger.MarketToken.PermitCall | contracts/markets/MarketERC20.sol:198-229 | a valid permit sets its allowance and moves the shared nonce on; otherwise neither changes |
| MarketLedger.MarketToken.AllowedLendCall | contracts/markets/Market.sol:412-427 | the asset allowance is spent unless the caller is the owner, Pearlmit covers the share or the allowance is infinite |
| MarketLedger.MarketToken.AllowedBorrowCall | contracts/markets/Market.sol:432-448 | the same for the collateral allowance |
| LedgerProperties.TransferExactly | contracts/markets/MarketERC20.sol:94-108 | a transfer goes through if and only if it is of nothing to another account, or the sender holds the amount and the receiver is the sender or nonzero with room; it moves exactly the amount |
| LedgerProperties.TransferFromExactly | contracts/markets/MarketERC20.sol:115-136 | between different accounts a nonzero transfer by a spender needs, besides, the owner's allowance of that spender to cover the amount, and uses exactly that allowance up by it unless infinite |
| LedgerProperties.ApproveExactly | contracts/markets/MarketERC20.sol:142-149 | an approval always goes through and sets exactly its own allowance of its own kind |
| LedgerProperties.PermitExactly | contracts/markets/MarketERC20.sol:198-229 | a permit goes through if and only if it is in time and the signature is the owner's on a digest with the owner's current nonce; it sets its own kind of allowance and moves that nonce on by one |
| LedgerProperties.CheckExactly | contracts/markets/Market.sol:412-448 | a caller other than the owner passes if and only if the share is nonzero and Pearlmit or that kind of allowance covers it, and uses that allowance up exactly when Pearlmit does not |
| LedgerProperties.RunConserves | contracts/markets/MarketERC20.sol:94-136 | over every run the sum of balances is conserved |
| LedgerProperties.RunWithinBudget | contracts/markets/MarketERC20.sol:115-136 | over every run, the balance an owner lost to a spender's transfers, or the shares a spender acted on without Pearlmit, since the last approval and what is left of that allowance add up to the approval, unless it is infinite |
| LedgerProperties.PermitsAuthoriseOnce | contracts/markets/MarketERC20.sol:194-229 | over every run no digest is authorised twice and no two permits of one owner share a nonce, across both kinds |
| LedgerProperties.SignatureCannotBeReplayed | contracts/markets/MarketERC20.sol:198-229 | a signature that is valid on one digest only cannot be used again |

## Left out

- 256-bit overflow outside the closing factor, the token's mint, the fee product and the ledger's credit: the risk functions use unbounded integers there.
- FullLiquidationNearsThreshold: the constant bound is stated for a closing factor the limit does not cut, a bonus within the multiplier and a scaled rate below one; for every other liquidation EveryLiquidationAfterUpdate gives the bound, which then depends on the amount cut, the bonus or the rate.
- CompletedLoan: receivers other than USDO and the helper, whose own callbacks are code that is not part of this model.
- LoanCompletesExactly: for the same receivers, from any world whose balances sum to the supply.
- EveryRunIsSafe: stated for runs in which nobody burns USDO's own balance and the helper is not replaced by an outside account; the two lemmas named for it above show what happens otherwise.
- Interest accrual, borrowing, repaying and the collateral modules: accrued totals are taken as given.
- YieldBox, the oracle, Cluster, Pearlmit and twTap: a fixed share ratio, a rate, an allowance value and, for twTap, a flag that says whether it takes the reward stand for them; BoringRebase and OpenZeppelin's ERC20 are not in the repository and are modelled from their published behaviour.
- `updateExchangeRate` and `_tryUpdateOracleRate`: they only store what the oracle returns.
- LayerZero sending and receiving, the USDO modules and USDO's own permit: delegated code, and an approval by the owner.
- Signature recovery, hashing and clone creation: a recovery function, an injective digest and a deployment outcome stand for them; a clone's init does not call back into the registry.
- The owner checks of the market configuration and the registry, ownership transfer, events, the simple setters and the fee withdrawal of Penrose.
- The risk type stored with a master contract: only its location is kept.
- Swaps, liquidator receivers and the split of the liquidation proceeds.
