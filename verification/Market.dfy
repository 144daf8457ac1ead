/**
 * The risk arithmetic of contracts/markets/Market.sol, over unbounded integers: solvency, the
 * borrowing limit, TVL, the closing factor, the liquidator's reward and the rounded ratio.
 * ClosingFactor256 gives the closing factor in 256-bit arithmetic.
 */
module Market {
  import opened Wrappers
  import opened Arithmetic
  import opened Conversions
  import opened MarketConfig

  const FEE_PRECISION_DECIMALS: nat := 5

  /** What a market's view functions read: its configuration, the accrued debt totals and the collateral asset. */
  datatype MarketView = MarketView(config: Config, totalBorrow: Rebase, vault: Vault, ratePrecision: nat)

  /** One user's entry in userBorrowPart and userCollateralShare. */
  datatype Position = Position(borrowPart: nat, collateralShare: nat)

  datatype TvlInfo = TvlInfo(amountToSolvency: nat, minTvl: nat, maxTvl: nat)

  /** The debt behind some parts, rounded down. None when there are no parts at all. */
  function DebtAmount(part: nat, total: Rebase): Option<nat> {
    if total.base == 0 then None else Some(MulDiv(part, total.elastic, total.base))
  }

  /** Collateral in units of the asset. */
  function CollateralValue(amount: nat, ratePrecision: nat, rate: nat): Option<nat> {
    if rate == 0 then None else Some(MulDiv(amount, ratePrecision, rate))
  }

  /** The user's collateral in units of the asset, as every liquidation values it. */
  function UserValue(m: MarketView, p: Position, rate: nat): nat
    requires rate > 0
  {
    CollateralValue(ToAmount(m.vault, p.collateralShare), m.ratePrecision, rate).value
  }

  function IsSolvent(m: MarketView, p: Position, rate: nat, liquidation: bool): Option<bool> {
    if p.borrowPart == 0 then Some(true)
    else if p.collateralShare == 0 then Some(false)
    else
      var _ :- Require(m.totalBorrow.base != 0);
      var factor := if liquidation then m.config.liquidationCollateralizationRate
                    else m.config.collateralizationRate;
      Some(ToAmount(m.vault, p.collateralShare) * (m.ratePrecision / FEE_PRECISION) * factor
           >= MulDiv(p.borrowPart * m.totalBorrow.elastic, rate, m.totalBorrow.base))
  }

  function MaxBorrowable(m: MarketView, share: nat, rate: nat): Option<nat> {
    var _ :- Require(rate > 0);
    Some(MulDiv(ToAmount(m.vault, share) * (m.ratePrecision / FEE_PRECISION), m.config.collateralizationRate, rate))
  }

  /** The pair (min, max) of _computeMaxAndMinLTVInAsset. */
  function MinMaxLtv(m: MarketView, share: nat, rate: nat): Option<(nat, nat)> {
    var max :- CollateralValue(ToAmount(m.vault, share), m.ratePrecision, rate);
    Some((MulDiv(max, m.config.collateralizationRate, FEE_PRECISION), max))
  }

  function ComputeTvlInfo(m: MarketView, p: Position, rate: nat): Option<TvlInfo> {
    if p.borrowPart == 0 then Some(TvlInfo(0, 0, 0)) else
      var limit :- MaxBorrowable(m, p.collateralShare, rate);
      var debt :- DebtAmount(p.borrowPart, m.totalBorrow);
      var ltv :- MinMaxLtv(m, p.collateralShare, rate);
      Some(TvlInfo(if debt >= limit then debt - limit else 0, ltv.0, ltv.1))
  }

  /** The debt at which liquidation starts. */
  function LiquidationStart(value: nat, rate: nat, precision: nat): nat {
    MulDiv(value, rate, Pow10(precision))
  }

  /** The liquidation rate scaled up by the multiplier: what repaying one unit takes off the threshold. */
  function ScaledRate(rate: nat, multiplier: nat, precision: nat): nat {
    MulDiv(rate, Pow10(precision) + multiplier, Pow10(precision))
  }

  /**
   * _computeClosingFactor. startRate is the argument of that name and storedRate the storage field
   * the scaled rate is computed from; computeClosingFactor passes the one for the other.
   */
  function ClosingFactor(part: nat, value: nat, precision: nat, startRate: nat, storedRate: nat,
                         multiplier: nat, total: Rebase): Option<nat>
  {
    var debt :- DebtAmount(part, total);
    var start := LiquidationStart(value, startRate, precision);
    if debt < start then Some(0) else
      var numerator := debt - start;
      var diff := ScaledRate(storedRate, multiplier, precision);
      var denominator := (Pow10(precision) - diff) * 10000000000000;
      var _ :- Require(denominator != 0);
      var x := TruncDiv(numerator * 1000000000000000000, denominator);
      var xPos := if x < 0 then -x else x;
      Some(if xPos > debt then debt else xPos)
  }

  /** The user's closing factor in a market: computeClosingFactor. */
  function UserClosingFactor(m: MarketView, part: nat, value: nat, precision: nat): Option<nat> {
    ClosingFactor(part, value, precision, m.config.liquidationCollateralizationRate,
                  m.config.liquidationCollateralizationRate, m.config.liquidationMultiplier, m.totalBorrow)
  }

  function CallerReward(m: MarketView, p: Position, rate: nat): Option<int> {
    var ltv :- MinMaxLtv(m, p.collateralShare, rate);
    var start, max := ltv.0, ltv.1;
    if p.borrowPart == 0 then Some(0)
    else if start == 0 then Some(0)
    else
      var borrowed :- DebtAmount(p.borrowPart, m.totalBorrow);
      if borrowed < start then Some(0)
      else if borrowed >= max then Some(m.config.minLiquidatorReward)
      else
        var reward := InterpolatedReward(m.config, start, max, borrowed);
        Some(if reward < m.config.minLiquidatorReward then m.config.minLiquidatorReward else reward)
  }

  /** The reward between the start and the maximum TVL, before the final clamp. */
  function InterpolatedReward(c: Config, start: nat, max: nat, borrowed: nat): int
    requires start <= borrowed && start < max
  {
    var percentage := MulDiv(borrowed - start, FEE_PRECISION, max - start);
    TruncDiv((c.minLiquidatorReward - c.maxLiquidatorReward) * percentage, FEE_PRECISION) + c.maxLiquidatorReward
  }

  function GetRatio(numerator: nat, denominator: nat, precision: nat): nat {
    if numerator == 0 || denominator == 0 then 0
    else (MulDiv(numerator, Pow10(precision + 1), denominator) + 5) / 10
  }

  function AllowanceAmount(m: MarketView, share: nat, rate: nat, borrowAmount: nat, decimals: nat): Option<nat> {
    var limit :- MaxBorrowable(m, share, rate);
    Some(MulDiv(GetRatio(borrowAmount, limit, decimals), share, Pow10(decimals)))
  }

  // ---------- 256-bit arithmetic ----------

  /** A checked uint256 result. */
  function U256(n: int): Option<nat> {
    if 0 <= n <= MAX_UINT256 then Some(n) else None
  }

  /** A checked int256 result. */
  function I256(n: int): Option<int> {
    if MIN_INT256 <= n <= MAX_INT256 then Some(n) else None
  }

  /** The conversion int256(n): it keeps the bits, so the upper half of the range turns negative. */
  function Int256(n: nat): int
    requires n <= MAX_UINT256
  {
    if n <= MAX_INT256 then n else n - MAX_UINT256 - 1
  }

  /** _computeClosingFactor with every operation checked as the compiler checks it. */
  function ClosingFactor256(part: nat, value: nat, precision: nat, startRate: nat, storedRate: nat,
                            multiplier: nat, total: Rebase): Option<nat>
  {
    var scaledPart :- U256(part * total.elastic);
    var _ :- Require(total.base != 0);
    var debt := scaledPart / total.base;
    var _ :- U256(debt);
    var scaledValue :- U256(value * startRate);
    var unit :- U256(Pow10(precision));
    var start := scaledValue / unit;
    if debt < start then Some(0) else
      var numerator := debt - start;
      var raised :- U256(unit + multiplier);
      var scaledRate :- U256(storedRate * raised);
      var diff := scaledRate / unit;
      var _ :- U256(diff);
      var _ :- U256(numerator);
      Capped256(numerator, unit, diff, debt)
  }

  /** The signed half of the computation, from the conversions to the cap. */
  function Capped256(numerator: nat, unit: nat, diff: nat, debt: nat): Option<nat>
    requires numerator <= MAX_UINT256 && unit <= MAX_UINT256 && diff <= MAX_UINT256
  {
    var gap :- I256(Int256(unit) - Int256(diff));
    var denominator :- I256(gap * 10000000000000);
    var scaled :- I256(Int256(numerator) * 1000000000000000000);
    var _ :- Require(denominator != 0);
    var x :- I256(TruncDiv(scaled, denominator));
    var xPos :- I256(if x < 0 then -x else x);
    Some(if xPos > debt then debt else xPos)
  }
}
