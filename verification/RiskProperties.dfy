/**
 * How the market's risk functions agree: each computes nearly the same comparison of debt with
 * collateral, with the divisions in a different order.
 */
module RiskProperties {
  import opened Wrappers
  import opened Arithmetic
  import opened Conversions
  import opened MarketConfig
  import opened Market

  // ---------- The two sides of the comparison ----------

  function CollateralSide(m: MarketView, p: Position, factor: nat): nat {
    ToAmount(m.vault, p.collateralShare) * (m.ratePrecision / FEE_PRECISION) * factor
  }

  function DebtSide(m: MarketView, p: Position, rate: nat): nat
    requires m.totalBorrow.base != 0
  {
    MulDiv(p.borrowPart * m.totalBorrow.elastic, rate, m.totalBorrow.base)
  }

  function Debt(m: MarketView, p: Position): nat
    requires m.totalBorrow.base != 0
  {
    DebtAmount(p.borrowPart, m.totalBorrow).value
  }

  /** The debt at which this user's liquidation starts. */
  function Start(m: MarketView, p: Position, rate: nat): nat
    requires rate > 0
  {
    LiquidationStart(UserValue(m, p, rate), m.config.liquidationCollateralizationRate, FEE_PRECISION_DECIMALS)
  }

  predicate WholePrecision(m: MarketView) {
    m.ratePrecision % FEE_PRECISION == 0
  }

  /** Dividing the debt side by the rate gives back the floored debt. */
  lemma DebtSideInAssets(m: MarketView, p: Position, rate: nat)
    requires m.totalBorrow.base != 0 && rate > 0
    ensures DebtSide(m, p, rate) / rate == Debt(m, p)
  {
    var n := p.borrowPart * m.totalBorrow.elastic;
    DivDiv(n * rate, m.totalBorrow.base, rate);
    DivCancel(n, m.totalBorrow.base, rate);
  }

  function FactorOf(m: MarketView, liquidation: bool): nat {
    if liquidation then m.config.liquidationCollateralizationRate else m.config.collateralizationRate
  }

  /**
   * When a user is solvent, for borrowing and for liquidation: without any division, a debt with backing
   * counts against the collateral side plus the one unit its floor forgives.
   */
  lemma SolventExactly(m: MarketView, p: Position, rate: nat, liquidation: bool)
    ensures IsSolvent(m, p, rate, liquidation).None?
            <==> p.borrowPart > 0 && p.collateralShare > 0 && m.totalBorrow.base == 0
    ensures IsSolvent(m, p, rate, liquidation) == Some(true)
            <==> || p.borrowPart == 0
                 || (p.collateralShare > 0 && m.totalBorrow.base > 0
                     && p.borrowPart * m.totalBorrow.elastic * rate
                        < (CollateralSide(m, p, FactorOf(m, liquidation)) + 1) * m.totalBorrow.base)
  {
    if p.borrowPart > 0 && p.collateralShare > 0 && m.totalBorrow.base > 0 {
      DivFloor(p.borrowPart * m.totalBorrow.elastic * rate, m.totalBorrow.base,
               CollateralSide(m, p, FactorOf(m, liquidation)) + 1);
    }
  }

  /** Comparing at the scale of the rate is comparing the quotients, up to one unit. */
  lemma CompareQuotients(x: nat, y: nat, rate: nat)
    requires rate > 0
    ensures x >= y ==> x / rate >= y / rate
    ensures x / rate > y / rate ==> x >= y
    ensures x / rate >= y / rate ==> y < x + rate
  {
    if x >= y {
      DivMono(y, x, rate);
    }
    DivBounds(x, rate);
    DivBounds(y, rate);
    if x / rate >= y / rate {
      MulMono(y / rate, x / rate, rate);
    }
    if x / rate > y / rate {
      MulMono(y / rate + 1, x / rate, rate);
    }
  }

  /**
   * Valuing collateral first and applying the rate factor afterwards loses at most one unit
   * against applying it before the only division.
   */
  lemma ValueThenFactor(amount: nat, precision: nat, rate: nat, factor: nat)
    requires rate > 0
    ensures precision % FEE_PRECISION == 0 ==>
              MulDiv(MulDiv(amount, precision, rate), factor, FEE_PRECISION)
              <= MulDiv(amount * (precision / FEE_PRECISION), factor, rate)
    ensures factor <= FEE_PRECISION ==>
              MulDiv(amount * (precision / FEE_PRECISION), factor, rate)
              <= MulDiv(MulDiv(amount, precision, rate), factor, FEE_PRECISION) + 1
  {
    if precision % FEE_PRECISION == 0 {
      LateAtMostEarly(amount, precision / FEE_PRECISION, rate, factor);
    }
    if factor <= FEE_PRECISION {
      EarlyAtMostLate(amount, precision, rate, factor);
    }
  }

  lemma LateAtMostEarly(amount: nat, k: nat, rate: nat, factor: nat)
    requires rate > 0
    ensures MulDiv(MulDiv(amount, k * FEE_PRECISION, rate), factor, FEE_PRECISION) <= MulDiv(amount * k, factor, rate)
  {
    var value := MulDiv(amount, k * FEE_PRECISION, rate);
    var late := MulDiv(value, factor, FEE_PRECISION);
    DivBounds(amount * (k * FEE_PRECISION), rate);
    DivBounds(value * factor, FEE_PRECISION);
    LateIsLower(amount, k, rate, factor, value, late);
    DivFloor(amount * k * factor, rate, late);
  }

  lemma EarlyAtMostLate(amount: nat, precision: nat, rate: nat, factor: nat)
    requires rate > 0 && factor <= FEE_PRECISION
    ensures MulDiv(amount * (precision / FEE_PRECISION), factor, rate)
            <= MulDiv(MulDiv(amount, precision, rate), factor, FEE_PRECISION) + 1
  {
    var k := precision / FEE_PRECISION;
    var value, early := MulDiv(amount, precision, rate), MulDiv(amount * k, factor, rate);
    DivBounds(amount * precision, rate);
    DivBounds(amount * k * factor, rate);
    DivBounds(precision, FEE_PRECISION);
    MulMono(k * FEE_PRECISION, precision, amount);
    EarlyIsBounded(amount, k, rate, factor, value, early);
    DivFloor(value * factor + factor, FEE_PRECISION, early);
    DivMono(value * factor + factor, value * factor + FEE_PRECISION, FEE_PRECISION);
    DivShift(value * factor, FEE_PRECISION, -1);
  }

  lemma LateIsLower(amount: nat, k: nat, rate: nat, factor: nat, value: nat, late: nat)
    requires rate > 0
    requires value * rate <= amount * (k * FEE_PRECISION)
    requires late * FEE_PRECISION <= value * factor
    ensures late * rate <= amount * k * factor
  {
    calc <= {
      late * rate * FEE_PRECISION;
      == { assert late * rate * FEE_PRECISION == late * FEE_PRECISION * rate; }
      late * FEE_PRECISION * rate;
      { MulMono(late * FEE_PRECISION, value * factor, rate); }
      value * factor * rate;
      == { assert value * factor * rate == value * rate * factor; }
      value * rate * factor;
      { MulMono(value * rate, amount * (k * FEE_PRECISION), factor); }
      amount * (k * FEE_PRECISION) * factor;
      == { assert amount * (k * FEE_PRECISION) * factor == amount * k * factor * FEE_PRECISION; }
      amount * k * factor * FEE_PRECISION;
    }
    MulCancel(late * rate, amount * k * factor, FEE_PRECISION);
  }

  lemma EarlyIsBounded(amount: nat, k: nat, rate: nat, factor: nat, value: nat, early: nat)
    requires rate > 0
    requires amount * (k * FEE_PRECISION) <= (value + 1) * rate
    requires early * rate <= amount * k * factor
    ensures early * FEE_PRECISION <= value * factor + factor
  {
    calc <= {
      early * FEE_PRECISION * rate;
      == { assert early * FEE_PRECISION * rate == early * rate * FEE_PRECISION; }
      early * rate * FEE_PRECISION;
      { MulMono(early * rate, amount * k * factor, FEE_PRECISION); }
      amount * k * factor * FEE_PRECISION;
      == { assert amount * k * factor * FEE_PRECISION == amount * (k * FEE_PRECISION) * factor; }
      amount * (k * FEE_PRECISION) * factor;
      { MulMono(amount * (k * FEE_PRECISION), (value + 1) * rate, factor); }
      (value + 1) * rate * factor;
      == { assert (value + 1) * rate * factor == (value + 1) * factor * rate; }
      (value + 1) * factor * rate;
    }
    MulCancel(early * FEE_PRECISION, (value + 1) * factor, rate);
  }

  // ---------- Closing factor and solvency ----------

  lemma StartIsQuotient(m: MarketView, p: Position, rate: nat)
    requires rate > 0
    ensures var x := CollateralSide(m, p, m.config.liquidationCollateralizationRate) / rate;
            && (WholePrecision(m) ==> Start(m, p, rate) <= x)
            && (Valid(m.config) ==> x <= Start(m, p, rate) + 1)
  {
    Pow10Values();
    ValueThenFactor(ToAmount(m.vault, p.collateralShare), m.ratePrecision, rate,
                    m.config.liquidationCollateralizationRate);
  }

  lemma NoCollateralNoStart(m: MarketView, p: Position, rate: nat)
    requires rate > 0 && p.collateralShare == 0
    ensures Start(m, p, rate) == 0
  {
    Pow10Values();
    assert ToAmount(m.vault, 0) == 0;
  }

  /**
   * The liquidation start and the liquidation solvency test agree to one unit of the asset: below the
   * start the user is solvent, and a solvent user's debt is at most one above it.
   */
  lemma StartAgreesWithSolvency(m: MarketView, p: Position, rate: nat)
    requires m.totalBorrow.base != 0 && rate > 0
    ensures WholePrecision(m) && Debt(m, p) < Start(m, p, rate) ==>
              IsSolvent(m, p, rate, true) == Some(true)
    ensures Valid(m.config) && IsSolvent(m, p, rate, true) == Some(true) ==>
              Debt(m, p) <= Start(m, p, rate) + 1
  {
    if p.borrowPart > 0 && p.collateralShare > 0 {
      SolventIsQuotients(m, p, rate);
      StartIsQuotient(m, p, rate);
    } else if p.borrowPart == 0 {
      assert Debt(m, p) == 0;
    } else {
      NoCollateralNoStart(m, p, rate);
    }
  }

  /** The solvency test in units of the asset. */
  lemma SolventIsQuotients(m: MarketView, p: Position, rate: nat)
    requires m.totalBorrow.base != 0 && rate > 0 && p.borrowPart > 0 && p.collateralShare > 0
    ensures var x := CollateralSide(m, p, m.config.liquidationCollateralizationRate) / rate;
            && IsSolvent(m, p, rate, true).Some?
            && (IsSolvent(m, p, rate, true).value ==> Debt(m, p) <= x)
            && (Debt(m, p) < x ==> IsSolvent(m, p, rate, true).value)
  {
    DebtSideInAssets(m, p, rate);
    CompareQuotients(CollateralSide(m, p, m.config.liquidationCollateralizationRate), DebtSide(m, p, rate), rate);
    assert IsSolvent(m, p, rate, true)
        == Some(CollateralSide(m, p, m.config.liquidationCollateralizationRate) >= DebtSide(m, p, rate));
  }

  /** The unit is really lost: a solvent user one above the start, and an insolvent one exactly at it. */
  lemma StartAgreementIsSharp(c: Config)
    ensures var m := MarketView(c.(liquidationCollateralizationRate := 80000), Rebase(1, 1), VaultRatio(1, 1), 100000);
            && IsSolvent(m, Position(1, 199), 10000000, true) == Some(true)
            && Debt(m, Position(1, 199)) == Start(m, Position(1, 199), 10000000) + 1
    ensures var m := MarketView(c.(liquidationCollateralizationRate := 80000), Rebase(19, 10),
                                VaultRatio(1, 1), 100000);
            && IsSolvent(m, Position(1, 2), 100000, true) == Some(false)
            && Debt(m, Position(1, 2)) == Start(m, Position(1, 2), 100000)
  {
    Pow10Values();
  }

  /** Every user whose debt is below the start is solvent, in all markets with this rate precision. */
  ghost predicate BelowStartIsSolvent(precision: nat) {
    forall m: MarketView, p: Position, rate: nat
      | m.ratePrecision == precision && m.totalBorrow.base != 0 && rate > 0 && Debt(m, p) < Start(m, p, rate) ::
        IsSolvent(m, p, rate, true) == Some(true)
  }

  /** At any other precision, each valid configuration at the full liquidation rate has an insolvent user below it. */
  lemma BelowStartInsolvent(c: Config, precision: nat)
    requires Valid(c) && precision % FEE_PRECISION != 0
    ensures Valid(c.(liquidationCollateralizationRate := FEE_PRECISION))
    ensures var m := MarketView(c.(liquidationCollateralizationRate := FEE_PRECISION), Rebase(1, 1),
                                VaultRatio(1, 1), precision);
            var p := Position(2 * precision - 1, 2);
            Debt(m, p) < Start(m, p, 1) && IsSolvent(m, p, 1, true) == Some(false)
  {
    Pow10Values();
    var config := c.(liquidationCollateralizationRate := FEE_PRECISION);
    var m := MarketView(config, Rebase(1, 1), VaultRatio(1, 1), precision);
    var p := Position(2 * precision - 1, 2);
    assert UserValue(m, p, 1) == 2 * precision;
    assert Start(m, p, 1) == 2 * precision;
    assert CollateralSide(m, p, FEE_PRECISION) == 2 * (precision / FEE_PRECISION) * FEE_PRECISION < 2 * precision - 1;
    assert DebtSide(m, p, 1) == 2 * precision - 1;
  }

  /** The first half of the agreement holds at a rate precision exactly when 1e5 divides it. */
  lemma WholePrecisionExactly(precision: nat)
    ensures BelowStartIsSolvent(precision) <==> precision % FEE_PRECISION == 0
  {
    if precision % FEE_PRECISION == 0 {
      forall m: MarketView, p: Position, rate: nat
        | m.ratePrecision == precision && m.totalBorrow.base != 0 && rate > 0 && Debt(m, p) < Start(m, p, rate)
        ensures IsSolvent(m, p, rate, true) == Some(true)
      {
        StartAgreesWithSolvency(m, p, rate);
      }
    } else {
      BelowStartInsolvent(Config(0, [], 0, 0, 0, 1, 2, 0, 0, 0, 0, 0), precision);
    }
  }

  // ---------- TVL and solvency ----------

  /** The amount to solvency is zero exactly when the solvency test passes at the granularity of one asset unit. */
  lemma TvlExactly(m: MarketView, p: Position, rate: nat)
    requires m.totalBorrow.base != 0 && rate > 0 && p.borrowPart > 0
    ensures ComputeTvlInfo(m, p, rate).Some?
    ensures var x := CollateralSide(m, p, m.config.collateralizationRate);
            var y := DebtSide(m, p, rate);
            && (ComputeTvlInfo(m, p, rate).value.amountToSolvency == 0 <==> y / rate <= x / rate)
            && (y / rate > x / rate ==>
                ComputeTvlInfo(m, p, rate).value.amountToSolvency == y / rate - x / rate)
    ensures ComputeTvlInfo(m, p, rate).value.maxTvl == UserValue(m, p, rate)
    ensures ComputeTvlInfo(m, p, rate).value.minTvl == MinMaxLtv(m, p.collateralShare, rate).value.0
  {
    DebtSideInAssets(m, p, rate);
  }

  /** TVL is all zero without debt, fails without a rate or parts to divide by, and floors each of its two quotients. */
  lemma TvlDefinedExactly(m: MarketView, p: Position, rate: nat)
    ensures ComputeTvlInfo(m, p, rate).Some? <==> p.borrowPart == 0 || (rate > 0 && m.totalBorrow.base > 0)
    ensures p.borrowPart == 0 ==> ComputeTvlInfo(m, p, rate) == Some(TvlInfo(0, 0, 0))
    ensures p.borrowPart > 0 && ComputeTvlInfo(m, p, rate).Some? ==>
              var info, collateral := ComputeTvlInfo(m, p, rate).value, ToAmount(m.vault, p.collateralShare);
              && info.maxTvl * rate <= collateral * m.ratePrecision < (info.maxTvl + 1) * rate
              && info.minTvl * FEE_PRECISION <= info.maxTvl * m.config.collateralizationRate
                 < (info.minTvl + 1) * FEE_PRECISION
  {
    if p.borrowPart > 0 && ComputeTvlInfo(m, p, rate).Some? {
      DivBounds(ToAmount(m.vault, p.collateralShare) * m.ratePrecision, rate);
      DivBounds(UserValue(m, p, rate) * m.config.collateralizationRate, FEE_PRECISION);
    }
  }

  /** Solvent users need nothing, and users who need nothing are short by less than one asset unit. */
  lemma TvlAgreesWithSolvency(m: MarketView, p: Position, rate: nat)
    requires m.totalBorrow.base != 0 && rate > 0
    ensures IsSolvent(m, p, rate, false) == Some(true) ==>
              ComputeTvlInfo(m, p, rate).value.amountToSolvency == 0
    ensures ComputeTvlInfo(m, p, rate).value.amountToSolvency == 0 ==>
              DebtSide(m, p, rate) < CollateralSide(m, p, m.config.collateralizationRate) + rate
  {
    CompareQuotients(CollateralSide(m, p, m.config.collateralizationRate), DebtSide(m, p, rate), rate);
    if p.borrowPart > 0 {
      TvlExactly(m, p, rate);
    } else {
      assert DebtSide(m, p, rate) == 0;
    }
  }

  /**
   * The borrowing limit and the borrowing solvency test agree to less than one unit of the asset: backed
   * debt below the limit is solvent, debt above it is not, and at the limit exactly as the test says.
   */
  lemma LimitAgreesWithSolvency(m: MarketView, p: Position, rate: nat)
    requires m.totalBorrow.base != 0 && rate > 0 && p.borrowPart > 0
    ensures MaxBorrowable(m, p.collateralShare, rate).Some?
    ensures var limit := MaxBorrowable(m, p.collateralShare, rate).value;
            && limit * rate <= CollateralSide(m, p, m.config.collateralizationRate) < (limit + 1) * rate
            && (Debt(m, p) < limit ==> IsSolvent(m, p, rate, false) == Some(true))
            && (Debt(m, p) > limit ==> IsSolvent(m, p, rate, false) == Some(false))
  {
    var x := CollateralSide(m, p, m.config.collateralizationRate);
    DivBounds(x, rate);
    DebtSideInAssets(m, p, rate);
    CompareQuotients(x, DebtSide(m, p, rate), rate);
    if p.collateralShare == 0 {
      assert ToAmount(m.vault, 0) == 0;
      assert x == 0;
    }
  }

  /** The bound on the shortfall is attained at every rate: an insolvent user who is told to add nothing. */
  lemma TvlBoundIsSharp(c: Config, rate: nat)
    requires rate > 1
    ensures var m := MarketView(c, Rebase(rate - 1, rate), VaultRatio(1, 1), 100000);
            var p := Position(1, 1);
            && ComputeTvlInfo(m.(config := c.(collateralizationRate := 0)), p, rate).value.amountToSolvency == 0
            && IsSolvent(m.(config := c.(collateralizationRate := 0)), p, rate, false) == Some(false)
            && DebtSide(m, p, rate) == rate - 1
  {
    DivUnique((rate - 1) * rate, rate, rate - 1);
    DivUnique(rate - 1, rate, 0);
  }

  /** The minimum TVL and the borrowing limit differ by at most one unit of the asset. */
  lemma MinTvlAgreesWithLimit(m: MarketView, share: nat, rate: nat)
    requires rate > 0
    ensures WholePrecision(m) ==> MinMaxLtv(m, share, rate).value.0 <= MaxBorrowable(m, share, rate).value
    ensures Valid(m.config) ==>
              && MaxBorrowable(m, share, rate).value <= MinMaxLtv(m, share, rate).value.0 + 1
              && MinMaxLtv(m, share, rate).value.0 <= MinMaxLtv(m, share, rate).value.1
  {
    ValueThenFactor(ToAmount(m.vault, share), m.ratePrecision, rate, m.config.collateralizationRate);
    if Valid(m.config) {
      var max := MinMaxLtv(m, share, rate).value.1;
      MulMono(m.config.collateralizationRate, FEE_PRECISION, max);
      DivMono(max * m.config.collateralizationRate, max * FEE_PRECISION, FEE_PRECISION);
      DivUnique(max * FEE_PRECISION, FEE_PRECISION, max);
    }
  }
}
