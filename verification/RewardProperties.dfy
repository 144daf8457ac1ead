/** The liquidator's reward and the rounded ratio behind the collateral allowance. */
module RewardProperties {
  import opened Wrappers
  import opened Arithmetic
  import opened Conversions
  import opened MarketConfig
  import opened Market
  import opened RiskProperties

  // ---------- Reward ----------

  /** The debt from which a liquidator is paid at all. */
  function RewardStart(m: MarketView, p: Position, rate: nat): nat
    requires rate > 0
  {
    MinMaxLtv(m, p.collateralShare, rate).value.0
  }

  /** There is debt, it is backed, and it has reached the start TVL. */
  predicate Rewarded(m: MarketView, p: Position, rate: nat)
    requires rate > 0 && m.totalBorrow.base != 0
  {
    p.borrowPart > 0 && 0 < RewardStart(m, p, rate) <= Debt(m, p)
  }

  /** The interpolation subtracts the floored share of the reward range. */
  lemma InterpolationFloors(c: Config, start: nat, max: nat, borrowed: nat)
    requires Valid(c) && start <= borrowed && start < max
    ensures InterpolatedReward(c, start, max, borrowed)
            == c.maxLiquidatorReward
               - MulDiv(c.maxLiquidatorReward - c.minLiquidatorReward,
                        MulDiv(borrowed - start, FEE_PRECISION, max - start), FEE_PRECISION)
  {
    var range := c.maxLiquidatorReward - c.minLiquidatorReward;
    var percentage := MulDiv(borrowed - start, FEE_PRECISION, max - start);
    assert (-range) * percentage == -(range * percentage);
  }

  /** Between the start and the maximum TVL: above the minimum even without the clamp, and at most the maximum. */
  lemma InterpolationInRange(c: Config, start: nat, max: nat, borrowed: nat)
    requires Valid(c) && start <= borrowed < max
    ensures c.minLiquidatorReward < InterpolatedReward(c, start, max, borrowed) <= c.maxLiquidatorReward
    ensures borrowed == start ==> InterpolatedReward(c, start, max, borrowed) == c.maxLiquidatorReward
  {
    InterpolationFloors(c, start, max, borrowed);
    var percentage := MulDiv(borrowed - start, FEE_PRECISION, max - start);
    PercentageBelowOne(borrowed - start, max - start);
    FactorStaysBelow(c.maxLiquidatorReward - c.minLiquidatorReward, percentage);
    if borrowed == start {
      assert percentage == 0;
    }
  }

  lemma PercentageBelowOne(part: nat, whole: nat)
    requires part < whole
    ensures MulDiv(part, FEE_PRECISION, whole) < FEE_PRECISION
  {
    DivFloor(part * FEE_PRECISION, whole, FEE_PRECISION);
    MulMono(part + 1, whole, FEE_PRECISION);
  }

  lemma FactorStaysBelow(range: nat, factor: nat)
    requires factor < FEE_PRECISION && range > 0
    ensures MulDiv(range, factor, FEE_PRECISION) < range
    ensures factor == 0 ==> MulDiv(range, factor, FEE_PRECISION) == 0
  {
    MulMono(factor + 1, FEE_PRECISION, range);
    DivFloor(range * factor, FEE_PRECISION, range);
  }

  lemma InterpolationFalls(c: Config, start: nat, max: nat, b1: nat, b2: nat)
    requires Valid(c) && start <= b1 <= b2 && start < max
    ensures InterpolatedReward(c, start, max, b2) <= InterpolatedReward(c, start, max, b1)
  {
    InterpolationFloors(c, start, max, b1);
    InterpolationFloors(c, start, max, b2);
    var range := c.maxLiquidatorReward - c.minLiquidatorReward;
    var p1 := MulDiv(b1 - start, FEE_PRECISION, max - start);
    var p2 := MulDiv(b2 - start, FEE_PRECISION, max - start);
    MulMono(b1 - start, b2 - start, FEE_PRECISION);
    DivMono((b1 - start) * FEE_PRECISION, (b2 - start) * FEE_PRECISION, max - start);
    MulMono(p1, p2, range);
    DivMono(range * p1, range * p2, FEE_PRECISION);
  }

  /** In a valid configuration a positive start TVL lies strictly below the maximum. */
  lemma StartBelowMax(m: MarketView, p: Position, rate: nat)
    requires Valid(m.config) && rate > 0 && RewardStart(m, p, rate) > 0
    ensures RewardStart(m, p, rate) < UserValue(m, p, rate)
  {
    RateBelowOne(m.config);
    FactorLowers(UserValue(m, p, rate), m.config.collateralizationRate);
  }

  lemma RateBelowOne(c: Config)
    requires Valid(c)
    ensures c.collateralizationRate < FEE_PRECISION
  {
    if c.collateralizationRate >= FEE_PRECISION {
      MulMono(FEE_PRECISION, c.collateralizationRate, FEE_PRECISION + c.liquidationMultiplier);
    }
  }

  lemma FactorLowers(value: nat, factor: nat)
    requires factor < FEE_PRECISION && MulDiv(value, factor, FEE_PRECISION) > 0
    ensures MulDiv(value, factor, FEE_PRECISION) < value
  {
    MulMono(factor + 1, FEE_PRECISION, value);
    DivFloor(value * factor, FEE_PRECISION, value);
  }

  /**
   * The reward is always defined and is zero exactly when none is due; otherwise it lies between the
   * two bounds, is the maximum at the start TVL, and is the minimum exactly from the maximum TVL on.
   */
  lemma RewardExactly(m: MarketView, p: Position, rate: nat)
    requires Valid(m.config) && rate > 0 && m.totalBorrow.base != 0
    ensures CallerReward(m, p, rate).Some?
    ensures CallerReward(m, p, rate).value == 0 <==> !Rewarded(m, p, rate)
    ensures Rewarded(m, p, rate) ==>
              var r := CallerReward(m, p, rate).value;
              && m.config.minLiquidatorReward <= r <= m.config.maxLiquidatorReward
              && (Debt(m, p) == RewardStart(m, p, rate) ==> r == m.config.maxLiquidatorReward)
              && (r == m.config.minLiquidatorReward <==> Debt(m, p) >= UserValue(m, p, rate))
  {
    if Rewarded(m, p, rate) {
      StartBelowMax(m, p, rate);
      if Debt(m, p) < UserValue(m, p, rate) {
        InterpolationInRange(m.config, RewardStart(m, p, rate), UserValue(m, p, rate), Debt(m, p));
      }
    }
  }

  /** In any configuration the reward fails exactly without a rate, or on backed debt without parts to divide by. */
  lemma RewardDefinedExactly(m: MarketView, p: Position, rate: nat)
    ensures CallerReward(m, p, rate).None?
            <==> rate == 0 || (p.borrowPart > 0 && RewardStart(m, p, rate) > 0 && m.totalBorrow.base == 0)
  {
  }

  /** A floored percentage of the way from the start to the maximum TVL, in units of 1e-5. */
  predicate IsPercentage(percentage: nat, done: nat, whole: nat) {
    percentage * whole <= done * FEE_PRECISION < (percentage + 1) * whole
  }

  /** A reward lowered from the maximum by that percentage of the reward range, floored. */
  predicate IsLowered(c: Config, percentage: nat, reward: int) {
    (c.maxLiquidatorReward - reward) * FEE_PRECISION
    <= (c.maxLiquidatorReward - c.minLiquidatorReward) * percentage
    < (c.maxLiquidatorReward - reward + 1) * FEE_PRECISION
  }

  lemma InterpolationIsLinear(c: Config, start: nat, max: nat, borrowed: nat)
    requires Valid(c) && start <= borrowed < max
    ensures var percentage := MulDiv(borrowed - start, FEE_PRECISION, max - start);
            && IsPercentage(percentage, borrowed - start, max - start)
            && IsLowered(c, percentage, InterpolatedReward(c, start, max, borrowed))
  {
    InterpolationFloors(c, start, max, borrowed);
    var percentage := MulDiv(borrowed - start, FEE_PRECISION, max - start);
    DivBounds((borrowed - start) * FEE_PRECISION, max - start);
    DivBounds((c.maxLiquidatorReward - c.minLiquidatorReward) * percentage, FEE_PRECISION);
  }

  /**
   * Between the start and the maximum TVL the reward falls linearly: by the percentage of the way the
   * debt has come, taken of the reward range, with each of the two quotients floored.
   */
  lemma RewardInterpolates(m: MarketView, p: Position, rate: nat)
    requires Valid(m.config) && rate > 0 && m.totalBorrow.base != 0
    requires Rewarded(m, p, rate) && Debt(m, p) < UserValue(m, p, rate)
    ensures CallerReward(m, p, rate).Some?
    ensures exists percentage: nat ::
              && IsPercentage(percentage, Debt(m, p) - RewardStart(m, p, rate),
                              UserValue(m, p, rate) - RewardStart(m, p, rate))
              && IsLowered(m.config, percentage, CallerReward(m, p, rate).value)
  {
    var start, max, debt := RewardStart(m, p, rate), UserValue(m, p, rate), Debt(m, p);
    InterpolationInRange(m.config, start, max, debt);
    InterpolationIsLinear(m.config, start, max, debt);
  }

  /** In particular in every configuration that a run of owner calls reaches. */
  lemma RewardInEveryReachableConfig(m: MarketView, p: Position, rate: nat, c: Config, calls: seq<Call>)
    requires Valid(c) && m.config == Run(c, calls) && rate > 0 && m.totalBorrow.base != 0
    ensures CallerReward(m, p, rate).Some?
    ensures var r := CallerReward(m, p, rate).value;
            r == 0 || m.config.minLiquidatorReward <= r <= m.config.maxLiquidatorReward
  {
    RunKeepsValid(c, calls);
    RewardExactly(m, p, rate);
  }

  /** More debt on the same collateral never earns the liquidator more, as long as a reward is due. */
  lemma RewardFalls(m: MarketView, p: Position, q: Position, rate: nat)
    requires Valid(m.config) && rate > 0 && m.totalBorrow.base != 0
    requires p.collateralShare == q.collateralShare && p.borrowPart <= q.borrowPart
    requires Rewarded(m, p, rate)
    ensures Rewarded(m, q, rate)
    ensures CallerReward(m, q, rate).value <= CallerReward(m, p, rate).value
  {
    MulMono(p.borrowPart, q.borrowPart, m.totalBorrow.elastic);
    DivMono(p.borrowPart * m.totalBorrow.elastic, q.borrowPart * m.totalBorrow.elastic, m.totalBorrow.base);
    RewardExactly(m, p, rate);
    RewardExactly(m, q, rate);
    if Debt(m, q) < UserValue(m, q, rate) {
      var start, max := RewardStart(m, p, rate), UserValue(m, p, rate);
      InterpolationInRange(m.config, start, max, Debt(m, p));
      InterpolationInRange(m.config, start, max, Debt(m, q));
      InterpolationFalls(m.config, start, max, Debt(m, p), Debt(m, q));
    }
  }

  // ---------- Ratio ----------

  /** It fails without a rate only; it is the floored share of the ratio, and zero without amount or limit. */
  lemma AllowanceExactly(m: MarketView, share: nat, rate: nat, borrowAmount: nat, decimals: nat)
    ensures AllowanceAmount(m, share, rate, borrowAmount, decimals).Some? <==> rate > 0
    ensures rate > 0 ==>
              var allowed, limit := AllowanceAmount(m, share, rate, borrowAmount, decimals).value,
                                    MaxBorrowable(m, share, rate).value;
              && IsShareOf(allowed, share, GetRatio(borrowAmount, limit, decimals), Pow10(decimals))
              && (borrowAmount == 0 || limit == 0 ==> allowed == 0)
  {
    if rate > 0 {
      ShareOfFloors(share, GetRatio(borrowAmount, MaxBorrowable(m, share, rate).value, decimals), Pow10(decimals));
    }
  }

  /** The floored part of the shares that a ratio in the given units stands for. */
  predicate IsShareOf(allowed: nat, share: nat, ratio: nat, unit: nat) {
    allowed * unit <= ratio * share < (allowed + 1) * unit
  }

  lemma ShareOfFloors(share: nat, ratio: nat, unit: nat)
    requires unit > 0
    ensures IsShareOf(MulDiv(ratio, share, unit), share, ratio, unit)
  {
    DivBounds(ratio * share, unit);
  }

  /** The ratio is the quotient scaled by the precision and rounded half up. */
  lemma RatioRoundsHalfUp(numerator: nat, denominator: nat, precision: nat)
    requires denominator > 0
    ensures var r, exact := GetRatio(numerator, denominator, precision), 2 * (numerator * Pow10(precision));
            && (2 * r - 1) * denominator <= exact < (2 * r + 1) * denominator
            && r == (exact + denominator) / (2 * denominator)
  {
    var n := numerator * Pow10(precision);
    assert numerator * Pow10(precision + 1) == 10 * n;
    HalfUp(n, denominator);
  }

  /** One more decimal digit, floored, is enough to round half up. */
  lemma HalfUp(n: nat, d: nat)
    requires d > 0
    ensures var r := (10 * n / d + 5) / 10;
            && (2 * r - 1) * d <= 2 * n < (2 * r + 1) * d
            && r == (2 * n + d) / (2 * d)
  {
    var q := 10 * n / d;
    var r := (q + 5) / 10;
    DivFloor(10 * n, d, 10 * r - 5);
    DivFloor(10 * n, d, 10 * r + 5);
    assert 10 * r - 5 <= q < 10 * r + 5;
    assert (10 * r - 5) * d == 5 * ((2 * r - 1) * d);
    assert (10 * r + 5) * d == 5 * ((2 * r + 1) * d);
    assert (2 * r - 1) * d == r * (2 * d) - d;
    assert (2 * r + 1) * d == r * (2 * d) + d;
    DivUnique(2 * n + d, 2 * d, r);
  }

  /** Borrowing within the limit never asks for more than the user's collateral shares. */
  lemma AllowanceWithinShares(m: MarketView, share: nat, rate: nat, borrowAmount: nat, decimals: nat)
    requires rate > 0 && borrowAmount <= MaxBorrowable(m, share, rate).value
    ensures AllowanceAmount(m, share, rate, borrowAmount, decimals).Some?
    ensures AllowanceAmount(m, share, rate, borrowAmount, decimals).value <= share
  {
    var limit := MaxBorrowable(m, share, rate).value;
    RatioWithinOne(borrowAmount, limit, decimals);
    FactorWithinOne(GetRatio(borrowAmount, limit, decimals), share, Pow10(decimals));
  }

  lemma RatioWithinOne(borrowAmount: nat, limit: nat, decimals: nat)
    requires borrowAmount <= limit
    ensures GetRatio(borrowAmount, limit, decimals) <= Pow10(decimals)
  {
    if borrowAmount > 0 {
      RatioAboveOneExactly(borrowAmount, limit, decimals);
      HalfStepAbove(borrowAmount, limit, Pow10(decimals));
    }
  }

  lemma HalfStepAbove(amount: nat, limit: nat, unit: nat)
    requires amount <= limit && limit > 0
    ensures 2 * (amount * unit) < (2 * unit + 1) * limit
  {
    MulMono(amount, limit, unit);
    assert (2 * unit + 1) * limit == 2 * (limit * unit) + limit;
  }

  lemma FactorWithinOne(ratio: nat, share: nat, unit: nat)
    requires ratio <= unit && unit > 0
    ensures MulDiv(ratio, share, unit) <= share
  {
    MulMono(ratio, unit, share);
    DivFloor(ratio * share, unit, share + 1);
  }

  /** The shares asked for are in proportion to the amount, up to half a step of the ratio and the final floor. */
  lemma AllowanceIsProportional(m: MarketView, share: nat, rate: nat, borrowAmount: nat, decimals: nat)
    requires rate > 0 && borrowAmount > 0 && MaxBorrowable(m, share, rate).value > 0
    ensures AllowanceAmount(m, share, rate, borrowAmount, decimals).Some?
    ensures var limit, scaled := MaxBorrowable(m, share, rate).value, 2 * (borrowAmount * Pow10(decimals));
            var allowed, step := AllowanceAmount(m, share, rate, borrowAmount, decimals).value, 2 * Pow10(decimals);
            && allowed * step * limit <= (scaled + limit) * share
            && (scaled - limit) * share <= (allowed + 1) * step * limit
  {
    var limit, unit := MaxBorrowable(m, share, rate).value, Pow10(decimals);
    var ratio := GetRatio(borrowAmount, limit, decimals);
    RatioRoundsHalfUp(borrowAmount, limit, decimals);
    DivBounds(ratio * share, unit);
    var scaled, allowed := 2 * (borrowAmount * unit), MulDiv(ratio, share, unit);
    ProportionAtMost(ratio, share, unit, limit, scaled, allowed);
    ProportionAtLeast(ratio, share, unit, limit, scaled, allowed);
  }

  lemma ProportionAtMost(ratio: nat, share: nat, unit: nat, limit: nat, scaled: nat, allowed: nat)
    requires allowed * unit <= ratio * share
    requires (2 * ratio - 1) * limit <= scaled
    ensures allowed * (2 * unit) * limit <= (scaled + limit) * share
  {
    MulMono(allowed * unit, ratio * share, 2 * limit);
    Regroup(allowed, unit, limit);
    RegroupRatio(ratio, share, limit);
    MulMono(2 * ratio * limit, scaled + limit, share);
  }

  lemma ProportionAtLeast(ratio: nat, share: nat, unit: nat, limit: nat, scaled: nat, allowed: nat)
    requires ratio * share < allowed * unit + unit
    requires scaled < (2 * ratio + 1) * limit
    ensures (scaled - limit) * share <= (allowed + 1) * (2 * unit) * limit
  {
    MulMono(scaled - limit, 2 * ratio * limit, share);
    RegroupRatio(ratio, share, limit);
    MulMono(ratio * share, (allowed + 1) * unit, 2 * limit);
    Regroup(allowed + 1, unit, limit);
  }

  lemma Regroup(a: nat, unit: nat, limit: nat)
    ensures a * unit * (2 * limit) == a * (2 * unit) * limit
  {
  }

  lemma RegroupRatio(ratio: nat, share: nat, limit: nat)
    ensures ratio * share * (2 * limit) == 2 * ratio * limit * share
  {
  }

  /** The ratio exceeds one whole unit exactly when the amount passes the limit by half a step of the precision. */
  lemma RatioAboveOneExactly(borrowAmount: nat, limit: nat, decimals: nat)
    requires borrowAmount > 0 && limit > 0
    ensures GetRatio(borrowAmount, limit, decimals) > Pow10(decimals)
            <==> 2 * (borrowAmount * Pow10(decimals)) >= (2 * Pow10(decimals) + 1) * limit
  {
    var unit, r := Pow10(decimals), GetRatio(borrowAmount, limit, decimals);
    RatioRoundsHalfUp(borrowAmount, limit, decimals);
    if r > unit {
      MulMono(2 * unit + 1, 2 * r - 1, limit);
    } else {
      MulMono(2 * r + 1, 2 * unit + 1, limit);
    }
  }
}
