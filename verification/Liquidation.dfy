/**
 * Sizing a liquidation: contracts/markets/MarketHelper.sol and the same computation in
 * contracts/markets/bigBang/BBLiquidation.sol, which goes on to update the position and the totals.
 */
module Liquidation {
  import opened Wrappers
  import opened Arithmetic
  import opened Conversions
  import opened MarketConfig
  import opened Market

  datatype LiquidationError =
    | ExchangeRateNotValid
    | ArithmeticPanic
    | BadDebt
    | Solvent
    | InsufficientLiquidationBonus
    | NotEnoughCollateral

  /** What is repaid, the debt parts that removes, and the collateral shares seized for it. */
  datatype Seizure = Seizure(borrowAmount: nat, borrowPart: nat, collateralShare: nat)

  /** A liquidator's limits. */
  datatype Terms = Terms(maxBorrowPart: nat, minLiquidationBonus: nat)

  function WithBonus(amount: nat, bonus: nat): nat {
    amount + MulDiv(amount, bonus, FEE_PRECISION)
  }

  function EffectiveBonus(value: nat, borrowAmount: nat): nat
    requires 0 < borrowAmount <= value
  {
    MulDiv(value - borrowAmount, FEE_PRECISION, borrowAmount)
  }

  /** The computation, given the result of the closing factor call it makes. */
  function SizeWith(m: MarketView, p: Position, rate: nat, t: Terms, closing: Option<nat>)
    : Result<Seizure, LiquidationError>
  {
    if rate == 0 then Failure(ExchangeRateNotValid) else
      var value := UserValue(m, p, rate);
      if closing == None then Failure(ArithmeticPanic) else
        var total := m.totalBorrow.ToElastic(p.borrowPart, true);
        if total == None then Failure(ArithmeticPanic) else
          var liquidatable := if closing.value > total.value then total.value else closing.value;
          if value < liquidatable then Failure(BadDebt) else
            var amount := if liquidatable > t.maxBorrowPart then t.maxBorrowPart else liquidatable;
            var part := if amount == total.value then p.borrowPart
                        else m.totalBorrow.ToBase(amount, false).value;
            if part == 0 then Failure(Solvent) else
              Seize(m, p, rate, t, value, total.value, amount, part)
  }

  /** The second half: the bonus, and the shares that cover it. */
  function Seize(m: MarketView, p: Position, rate: nat, t: Terms, value: nat, total: nat, amount: nat, part: nat)
    : Result<Seizure, LiquidationError>
    requires amount <= total
  {
    var amountWithBonus := WithBonus(amount, m.config.liquidationBonusAmount);
    if value < amountWithBonus then
      if value <= total then Failure(BadDebt)
      else if t.minLiquidationBonus == 0 then Failure(InsufficientLiquidationBonus)
      else if EffectiveBonus(value, amount) < t.minLiquidationBonus then Failure(InsufficientLiquidationBonus)
      else Success(Seizure(amount, part, p.collateralShare))
    else if m.ratePrecision == 0 then Failure(ArithmeticPanic)
    else
      var share := ToShare(m.vault, MulDiv(amountWithBonus, rate, m.ratePrecision));
      if share > p.collateralShare then Failure(NotEnoughCollateral)
      else Success(Seizure(amount, part, share))
  }

  /** The closing factor at fee precision, as the on-chain liquidation computes it. */
  function Closing(m: MarketView, p: Position, rate: nat): Option<nat>
    requires rate > 0
  {
    UserClosingFactor(m, p.borrowPart, UserValue(m, p, rate), FEE_PRECISION_DECIMALS)
  }

  /** Sizing at fee precision. */
  function Size(m: MarketView, p: Position, rate: nat, t: Terms): Result<Seizure, LiquidationError> {
    SizeWith(m, p, rate, t, if rate == 0 then None else Closing(m, p, rate))
  }

  /** Sizing as MarketHelper does it: 1e5 is passed where the closing factor takes a power of ten. */
  function HelperSize(m: MarketView, p: Position, rate: nat, t: Terms): Result<Seizure, LiquidationError> {
    SizeWith(m, p, rate, t,
             if rate == 0 then None else
               ClosingFactor256(p.borrowPart, UserValue(m, p, rate), 100000,
                                m.config.liquidationCollateralizationRate,
                                m.config.liquidationCollateralizationRate,
                                m.config.liquidationMultiplier, m.totalBorrow))
  }

  /** The position after the seizure. */
  function PositionAfter(p: Position, s: Seizure): Position
    requires s.borrowPart <= p.borrowPart && s.collateralShare <= p.collateralShare
  {
    Position(p.borrowPart - s.borrowPart, p.collateralShare - s.collateralShare)
  }

  /** The market after the seizure: both debt totals shrink by what was repaid. */
  function MarketAfter(m: MarketView, s: Seizure): MarketView
    requires s.borrowAmount <= m.totalBorrow.elastic && s.borrowPart <= m.totalBorrow.base
  {
    m.(totalBorrow := Rebase(m.totalBorrow.elastic - s.borrowAmount, m.totalBorrow.base - s.borrowPart))
  }
}
