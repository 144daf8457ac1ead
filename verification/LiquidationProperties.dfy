/** What every liquidation keeps, and what a full one achieves. */
module LiquidationProperties {
  import opened Wrappers
  import opened Arithmetic
  import opened Conversions
  import opened MarketConfig
  import opened Market
  import opened RiskProperties
  import opened Liquidation
  import CF = ClosingFactorProperties

  function QueryOf(m: MarketView, p: Position, rate: nat): CF.Query
    requires rate > 0
  {
    CF.Query(p.borrowPart, UserValue(m, p, rate), FEE_PRECISION_DECIMALS,
             m.config.liquidationCollateralizationRate, m.config.liquidationCollateralizationRate,
             m.config.liquidationMultiplier, m.totalBorrow)
  }

  /** What a call with 1e5 in place of the exponent does, on every input: it reverts. */
  lemma HelperAlwaysReverts(m: MarketView, p: Position, rate: nat, t: Terms)
    ensures HelperSize(m, p, rate, t)
            == Failure(if rate == 0 then ExchangeRateNotValid else ArithmeticPanic)
  {
    if rate > 0 {
      CF.LargeExponentReverts(QueryOf(m, p, rate).(precision := 100000));
    }
  }

  /** The whole debt, rounded up, as the sizing sees it. */
  function TotalDebt(m: MarketView, p: Position): nat
    requires m.totalBorrow.base > 0
  {
    CeilDiv(p.borrowPart * m.totalBorrow.elastic, m.totalBorrow.base)
  }

  /** The clamp to the current debt changes nothing: the closing factor is capped by the floored debt. */
  lemma ClampNeverFires(m: MarketView, p: Position, rate: nat)
    requires rate > 0 && Closing(m, p, rate).Some? && m.totalBorrow.elastic > 0
    ensures m.totalBorrow.base > 0
    ensures m.totalBorrow.ToElastic(p.borrowPart, true) == Some(TotalDebt(m, p))
    ensures Closing(m, p, rate).value <= Debt(m, p) <= TotalDebt(m, p)
  {
    CF.DefinedExactly(QueryOf(m, p, rate));
    ToElasticRoundsUp(m.totalBorrow, p.borrowPart);
    CeilBounds(p.borrowPart * m.totalBorrow.elastic, m.totalBorrow.base);
  }

  /** Repaying less than the rounded-up debt leaves the user at least one part. */
  lemma PartsWithinPosition(m: MarketView, p: Position, amount: nat)
    requires m.totalBorrow.base > 0 && m.totalBorrow.elastic > 0 && amount < TotalDebt(m, p)
    ensures m.totalBorrow.ToBase(amount, false).value < p.borrowPart
  {
    var el, base := m.totalBorrow.elastic, m.totalBorrow.base;
    CeilBounds(p.borrowPart * el, base);
    MulMono(amount, TotalDebt(m, p) - 1, base);
    DivFloor(amount * base, el, p.borrowPart);
  }

  /** Collateral that covers an amount is worth at least the shares that amount converts to. */
  lemma CoveredByShares(m: MarketView, p: Position, rate: nat, amount: nat)
    requires rate > 0 && m.ratePrecision > 0 && amount <= UserValue(m, p, rate)
    ensures ToShare(m.vault, MulDiv(amount, rate, m.ratePrecision)) <= p.collateralShare
  {
    var collateral, value := ToAmount(m.vault, p.collateralShare), UserValue(m, p, rate);
    DivBounds(collateral * m.ratePrecision, rate);
    MulMono(amount, value, rate);
    DivMono(amount * rate, collateral * m.ratePrecision, m.ratePrecision);
    DivUnique(collateral * m.ratePrecision, m.ratePrecision, collateral);
    ToShareMono(m.vault, MulDiv(amount, rate, m.ratePrecision), collateral);
    ShareRoundTrip(m.vault, p.collateralShare);
  }

  /** The revert for too little collateral cannot happen, whatever the closing factor was. */
  lemma NotEnoughCollateralUnreachable(m: MarketView, p: Position, rate: nat, t: Terms, closing: Option<nat>)
    ensures SizeWith(m, p, rate, t, closing) != Failure(NotEnoughCollateral)
  {
    if rate > 0 && m.ratePrecision > 0 {
      forall amount: nat | amount <= UserValue(m, p, rate)
        ensures ToShare(m.vault, MulDiv(amount, rate, m.ratePrecision)) <= p.collateralShare
      {
        CoveredByShares(m, p, rate, amount);
      }
    }
  }

  /** The shares of an amount are worth at most that amount. */
  lemma SharesWorthAtMost(m: MarketView, rate: nat, amount: nat)
    requires rate > 0 && m.ratePrecision > 0
    ensures UserValue(m, Position(0, ToShare(m.vault, MulDiv(amount, rate, m.ratePrecision))), rate) <= amount
  {
    var a := MulDiv(amount, rate, m.ratePrecision);
    AmountRoundTrip(m.vault, a);
    var b := ToAmount(m.vault, ToShare(m.vault, a));
    DivBounds(amount * rate, m.ratePrecision);
    MulMono(b, a, m.ratePrecision);
    DivMono(b * m.ratePrecision, amount * rate, rate);
    DivUnique(amount * rate, rate, amount);
  }

  /** Below the amount with its bonus, the effective bonus is strictly below the configured one. */
  lemma ThinBonusIsSmaller(value: nat, amount: nat, bonus: nat)
    requires 0 < amount <= value < WithBonus(amount, bonus)
    ensures EffectiveBonus(value, amount) < bonus
  {
    DivBounds(amount * bonus, FEE_PRECISION);
    MulMono(value - amount + 1, MulDiv(amount, bonus, FEE_PRECISION), FEE_PRECISION);
    DivFloor((value - amount) * FEE_PRECISION, amount, bonus);
  }

  /** Which of the two branches a liquidation took. */
  predicate Thin(m: MarketView, p: Position, rate: nat, s: Seizure)
    requires rate > 0
  {
    UserValue(m, p, rate) < WithBonus(s.borrowAmount, m.config.liquidationBonusAmount)
  }

  /** What the branches before the seizure establish about a liquidation that succeeds. */
  lemma SuccessFacts(m: MarketView, p: Position, rate: nat, t: Terms)
    requires Size(m, p, rate, t).Success?
    ensures rate > 0 && Closing(m, p, rate).Some?
    ensures m.totalBorrow.elastic > 0 && m.totalBorrow.base > 0
    ensures var s := Size(m, p, rate, t).value;
            && s.borrowAmount == Min(Closing(m, p, rate).value, t.maxBorrowPart)
            && s.borrowPart == PartFor(m, p, s.borrowAmount)
            && s.borrowPart > 0
            && s.borrowAmount <= TotalDebt(m, p)
            && Size(m, p, rate, t) == Seize(m, p, rate, t, UserValue(m, p, rate), TotalDebt(m, p),
                                            s.borrowAmount, s.borrowPart)
  {
    CF.DefinedExactly(QueryOf(m, p, rate));
    assert m.totalBorrow.elastic > 0;
    SizeReaches(m, p, rate, t);
  }

  /**
   * When a liquidation goes through, for every input: the collateral covers the closing factor, the
   * repaid amount removes at least one part, and either the collateral covers the bonus too, or it
   * exceeds the whole debt by the liquidator's own, nonzero, minimum.
   */
  lemma SucceedsExactly(m: MarketView, p: Position, rate: nat, t: Terms)
    requires rate > 0 && Closing(m, p, rate).Some? && m.totalBorrow.elastic > 0
    ensures m.totalBorrow.base > 0
    ensures var amount := Min(Closing(m, p, rate).value, t.maxBorrowPart);
            var value := UserValue(m, p, rate);
            Size(m, p, rate, t).Success?
            <==> && Closing(m, p, rate).value <= value
                 && PartFor(m, p, amount) > 0
                 && (WithBonus(amount, m.config.liquidationBonusAmount) <= value
                     || (TotalDebt(m, p) < value
                         && 0 < t.minLiquidationBonus
                         && t.minLiquidationBonus * amount <= (value - amount) * FEE_PRECISION))
  {
    SizeReaches(m, p, rate, t);
    var amount := Min(Closing(m, p, rate).value, t.maxBorrowPart);
    var part := PartFor(m, p, amount);
    if Closing(m, p, rate).value <= UserValue(m, p, rate) && part > 0 {
      PositiveAmount(m, p, amount);
      SeizeSucceedsExactly(m, p, rate, t, amount, part);
    }
  }

  /**
   * And which error comes otherwise: too little value for the closing factor, or for the whole debt once
   * the bonus is not covered; no part to remove; or a minimum bonus that is not set or not met.
   */
  lemma FailsExactly(m: MarketView, p: Position, rate: nat, t: Terms)
    requires rate > 0 && Closing(m, p, rate).Some? && m.totalBorrow.elastic > 0
    ensures m.totalBorrow.base > 0
    ensures var closing, value, r := Closing(m, p, rate).value, UserValue(m, p, rate), Size(m, p, rate, t);
            var amount, total := Min(closing, t.maxBorrowPart), TotalDebt(m, p);
            var part, withBonus := PartFor(m, p, amount), WithBonus(amount, m.config.liquidationBonusAmount);
            && (r == Failure(BadDebt)
                <==> value < closing || (part > 0 && value < withBonus && value <= total))
            && (r == Failure(Solvent) <==> closing <= value && part == 0)
            && (r == Failure(InsufficientLiquidationBonus)
                <==> && closing <= value && part > 0 && total < value < withBonus
                     && (t.minLiquidationBonus == 0
                         || (value - amount) * FEE_PRECISION < t.minLiquidationBonus * amount))
  {
    SizeReaches(m, p, rate, t);
    var amount := Min(Closing(m, p, rate).value, t.maxBorrowPart);
    var part := PartFor(m, p, amount);
    if Closing(m, p, rate).value <= UserValue(m, p, rate) && part > 0 {
      PositiveAmount(m, p, amount);
      SeizeFailsExactly(m, p, rate, t, amount, part);
    }
  }

  lemma RateFirst(m: MarketView, p: Position, rate: nat, t: Terms)
    ensures Size(m, p, rate, t) == Failure(ExchangeRateNotValid) <==> rate == 0
  {
  }

  lemma SeizeFailsExactly(m: MarketView, p: Position, rate: nat, t: Terms, amount: nat, part: nat)
    requires rate > 0 && m.totalBorrow.base > 0 && 0 < amount <= TotalDebt(m, p)
    ensures var value, total := UserValue(m, p, rate), TotalDebt(m, p);
            var withBonus := WithBonus(amount, m.config.liquidationBonusAmount);
            var r := Seize(m, p, rate, t, value, total, amount, part);
            && r != Failure(Solvent)
            && (r == Failure(BadDebt) <==> value < withBonus && value <= total)
            && (r == Failure(InsufficientLiquidationBonus)
                <==> && total < value < withBonus
                     && (t.minLiquidationBonus == 0
                         || (value - amount) * FEE_PRECISION < t.minLiquidationBonus * amount))
  {
    var value := UserValue(m, p, rate);
    DivFloor((value - amount) * FEE_PRECISION, amount, t.minLiquidationBonus);
  }

  /** The debt parts a repayment removes. */
  function PartFor(m: MarketView, p: Position, amount: nat): nat
    requires m.totalBorrow.base > 0
  {
    if amount == TotalDebt(m, p) then p.borrowPart else m.totalBorrow.ToBase(amount, false).value
  }

  lemma SizeReaches(m: MarketView, p: Position, rate: nat, t: Terms)
    requires rate > 0 && Closing(m, p, rate).Some? && m.totalBorrow.elastic > 0
    ensures m.totalBorrow.base > 0
    ensures var amount := Min(Closing(m, p, rate).value, t.maxBorrowPart);
            && amount <= TotalDebt(m, p)
            && Size(m, p, rate, t)
               == if UserValue(m, p, rate) < Closing(m, p, rate).value then Failure(BadDebt)
                  else if PartFor(m, p, amount) == 0 then Failure(Solvent)
                  else Seize(m, p, rate, t, UserValue(m, p, rate), TotalDebt(m, p), amount, PartFor(m, p, amount))
  {
    ClampNeverFires(m, p, rate);
  }

  lemma SeizeSucceedsExactly(m: MarketView, p: Position, rate: nat, t: Terms, amount: nat, part: nat)
    requires rate > 0 && m.totalBorrow.base > 0 && 0 < amount <= TotalDebt(m, p)
    ensures var value := UserValue(m, p, rate);
            Seize(m, p, rate, t, value, TotalDebt(m, p), amount, part).Success?
            <==> || WithBonus(amount, m.config.liquidationBonusAmount) <= value
                 || (TotalDebt(m, p) < value
                     && 0 < t.minLiquidationBonus
                     && t.minLiquidationBonus * amount <= (value - amount) * FEE_PRECISION)
  {
    var value := UserValue(m, p, rate);
    DivFloor((value - amount) * FEE_PRECISION, amount, t.minLiquidationBonus);
    if WithBonus(amount, m.config.liquidationBonusAmount) <= value {
      assert m.ratePrecision > 0;
      CoveredByShares(m, p, rate, WithBonus(amount, m.config.liquidationBonusAmount));
    }
  }

  /** Removing a part takes a positive amount. */
  lemma PositiveAmount(m: MarketView, p: Position, amount: nat)
    requires m.totalBorrow.elastic > 0 && m.totalBorrow.base > 0
    requires PartFor(m, p, amount) > 0
    ensures amount > 0
  {
    CeilBounds(p.borrowPart * m.totalBorrow.elastic, m.totalBorrow.base);
  }

  /**
   * Every liquidation repays something, within the limit, the closing factor and the debt; it removes
   * at least one debt part and no more than the user holds, and seizes no more than the user's shares.
   */
  lemma WithinPosition(m: MarketView, p: Position, rate: nat, t: Terms)
    requires Size(m, p, rate, t).Success?
    ensures rate > 0 && Closing(m, p, rate).Some? && m.totalBorrow.base > 0
    ensures var s := Size(m, p, rate, t).value;
            && 0 < s.borrowAmount <= t.maxBorrowPart
            && s.borrowAmount <= Closing(m, p, rate).value <= Debt(m, p)
            && 0 < s.borrowPart <= p.borrowPart
            && s.collateralShare <= p.collateralShare
  {
    SuccessFacts(m, p, rate, t);
    ClampNeverFires(m, p, rate);
    var s := Size(m, p, rate, t).value;
    if s.borrowAmount < TotalDebt(m, p) {
      PartsWithinPosition(m, p, s.borrowAmount);
    } else {
      CeilBounds(p.borrowPart * m.totalBorrow.elastic, m.totalBorrow.base);
    }
  }

  /**
   * The seized collateral is worth at most the repaid amount with its configured bonus; in the thin
   * branch the bonus is at least the liquidator's minimum and strictly below the configured one.
   */
  lemma SeizureIsFair(m: MarketView, p: Position, rate: nat, t: Terms)
    requires Size(m, p, rate, t).Success?
    ensures rate > 0
    ensures var s := Size(m, p, rate, t).value;
            && UserValue(m, Position(0, s.collateralShare), rate)
               <= WithBonus(s.borrowAmount, m.config.liquidationBonusAmount)
            && (Thin(m, p, rate, s) ==>
                && s.collateralShare == p.collateralShare
                && 0 < s.borrowAmount < UserValue(m, p, rate)
                && 0 < t.minLiquidationBonus <= EffectiveBonus(UserValue(m, p, rate), s.borrowAmount)
                && EffectiveBonus(UserValue(m, p, rate), s.borrowAmount) < m.config.liquidationBonusAmount)
  {
    SuccessFacts(m, p, rate, t);
    WithinPosition(m, p, rate, t);
    var s := Size(m, p, rate, t).value;
    if Thin(m, p, rate, s) {
      ThinBonusIsSmaller(UserValue(m, p, rate), s.borrowAmount, m.config.liquidationBonusAmount);
    } else {
      SharesWorthAtMost(m, rate, WithBonus(s.borrowAmount, m.config.liquidationBonusAmount));
    }
  }

  /**
   * The three amounts of every liquidation: the closing factor up to the limit is repaid; that removes
   * all of the user's parts if it is the whole debt, and the floored parts it is worth otherwise; and
   * the shares seized are those the amount with its bonus converts to, floored at each conversion, or
   * all of them in the thin branch.
   */
  lemma SizesExactly(m: MarketView, p: Position, rate: nat, t: Terms)
    requires Size(m, p, rate, t).Success?
    ensures rate > 0 && m.totalBorrow.base > 0 && Closing(m, p, rate).Some?
    ensures var s, el, base := Size(m, p, rate, t).value, m.totalBorrow.elastic, m.totalBorrow.base;
            var amount := s.borrowAmount;
            && amount == Min(Closing(m, p, rate).value, t.maxBorrowPart)
            && (if amount == TotalDebt(m, p) then s.borrowPart == p.borrowPart
                else IsWorth(s.borrowPart, el, base, amount))
            && (if Thin(m, p, rate, s) then s.collateralShare == p.collateralShare
                else exists collateral: nat ::
                       IsSeized(m, rate, WithBonus(amount, m.config.liquidationBonusAmount), collateral,
                                s.collateralShare))
  {
    SuccessFacts(m, p, rate, t);
    var s := Size(m, p, rate, t).value;
    WorthFloors(m.totalBorrow, s.borrowAmount);
    if !Thin(m, p, rate, s) {
      var withBonus := WithBonus(s.borrowAmount, m.config.liquidationBonusAmount);
      SeizedFloors(m, rate, withBonus);
      assert IsSeized(m, rate, withBonus, MulDiv(withBonus, rate, m.ratePrecision), s.collateralShare);
    }
  }

  /** The parts an amount of debt is worth, floored. */
  predicate IsWorth(part: nat, el: nat, base: nat, amount: nat) {
    part * el <= amount * base < (part + 1) * el
  }

  lemma WorthFloors(total: Rebase, amount: nat)
    requires total.elastic > 0
    ensures IsWorth(total.ToBase(amount, false).value, total.elastic, total.base, amount)
  {
    DivBounds(amount * total.base, total.elastic);
  }

  /** The bonus is floored as well. */
  lemma BonusFloors(amount: nat, bonus: nat)
    ensures WithBonus(amount, bonus) * 100000 <= amount * (100000 + bonus) < (WithBonus(amount, bonus) + 1) * 100000
  {
    DivBounds(amount * bonus, FEE_PRECISION);
    assert amount * (100000 + bonus) == amount * 100000 + amount * bonus;
  }

  /** An amount of the asset in collateral and in shares of it, each floored. */
  predicate IsSeized(m: MarketView, rate: nat, amount: nat, collateral: nat, share: nat) {
    && collateral * m.ratePrecision <= amount * rate < (collateral + 1) * m.ratePrecision
    && share * m.vault.amount <= collateral * m.vault.shares < (share + 1) * m.vault.amount
  }

  lemma SeizedFloors(m: MarketView, rate: nat, amount: nat)
    requires m.ratePrecision > 0
    ensures var collateral := MulDiv(amount, rate, m.ratePrecision);
            IsSeized(m, rate, amount, collateral, ToShare(m.vault, collateral))
  {
    var collateral := MulDiv(amount, rate, m.ratePrecision);
    DivBounds(amount * rate, m.ratePrecision);
    DivBounds(collateral * m.vault.shares, m.vault.amount);
  }

  /**
   * Debt parts remain after a liquidation exactly when less than the whole rounded-up debt is repaid,
   * and they remain without collateral exactly when, besides, the branch was the thin one or the
   * bonus took the last share. The bad debt guard does not exclude either.
   */
  lemma LeavesBadDebtExactly(m: MarketView, p: Position, rate: nat, t: Terms)
    requires Size(m, p, rate, t).Success?
    ensures rate > 0 && m.totalBorrow.base > 0 && Closing(m, p, rate).Some?
    ensures var s := Size(m, p, rate, t).value;
            && s.borrowPart <= p.borrowPart && s.collateralShare <= p.collateralShare
            && var after, amount := PositionAfter(p, s), Min(Closing(m, p, rate).value, t.maxBorrowPart);
               && (after.borrowPart > 0 <==> amount < TotalDebt(m, p))
               && (Thin(m, p, rate, s) ==> after.collateralShare == 0)
               && (!Thin(m, p, rate, s) ==>
                   && m.ratePrecision > 0
                   && (after.collateralShare == 0
                       <==> p.collateralShare
                            <= ToShare(m.vault, MulDiv(WithBonus(amount, m.config.liquidationBonusAmount),
                                                       rate, m.ratePrecision))))
  {
    SuccessFacts(m, p, rate, t);
    WithinPosition(m, p, rate, t);
    var s := Size(m, p, rate, t).value;
    if s.borrowAmount < TotalDebt(m, p) {
      PartsWithinPosition(m, p, s.borrowAmount);
    }
  }

  /** It happens: 950 of a debt of 1000 is repaid for all of the collateral, and 50 parts stay with none. */
  lemma BadDebtLeft(c: Config)
    ensures var config := c.(liquidationCollateralizationRate := 80000, liquidationMultiplier := 12000,
                             liquidationBonusAmount := 10000);
            var m := MarketView(config, Rebase(1000, 1000), VaultRatio(1, 1), 100000);
            var r := Size(m, Position(1000, 1001), 100000, Terms(950, 1));
            && r == Success(Seizure(950, 950, 1001))
            && PositionAfter(Position(1000, 1001), r.value) == Position(50, 0)
  {
    Pow10Values();
    var config := c.(liquidationCollateralizationRate := 80000, liquidationMultiplier := 12000,
                     liquidationBonusAmount := 10000);
    var m := MarketView(config, Rebase(1000, 1000), VaultRatio(1, 1), 100000);
    var p := Position(1000, 1001);
    assert UserValue(m, p, 100000) == 1001;
    var q := QueryOf(m, p, 100000);
    assert q.Diff() == 89600 && q.Start() == 800 && q.Debt() == 1000;
    CF.ClosedForm(q);
    assert MulDiv(200, 100000, 10400) == 1923;
    assert Closing(m, p, 100000) == Some(1000);
    assert m.totalBorrow.ToElastic(1000, true) == Some(1000);
    assert m.totalBorrow.ToBase(950, false) == Some(950);
    assert WithBonus(950, 10000) == 1045;
    assert EffectiveBonus(1001, 950) == 5368;
    assert SizeWith(m, p, 100000, Terms(950, 1), Some(1000)) == Success(Seizure(950, 950, 1001));
  }

  /**
   * Arithmetic fails exactly when the closing factor is undefined or there is no debt at all; the
   * bonus never underflows and nothing else divides by zero, a precision of zero included.
   */
  lemma PanicsExactly(m: MarketView, p: Position, rate: nat, t: Terms)
    ensures Size(m, p, rate, t) == Failure(ArithmeticPanic)
            <==> rate > 0 && (Closing(m, p, rate) == None || m.totalBorrow.elastic == 0)
  {
    if rate > 0 && Closing(m, p, rate).Some? {
      CF.DefinedExactly(QueryOf(m, p, rate));
      if m.totalBorrow.elastic > 0 {
        ClampNeverFires(m, p, rate);
        if m.ratePrecision == 0 {
          assert UserValue(m, p, rate) == 0;
          CeilBounds(p.borrowPart * m.totalBorrow.elastic, m.totalBorrow.base);
        }
      }
    }
  }

  /**
   * Only debts above the liquidation start are ever sized; among users the solvency test calls
   * solvent that leaves those exactly one unit above it.
   */
  lemma OnlyAboveStart(m: MarketView, p: Position, rate: nat, t: Terms)
    requires Size(m, p, rate, t).Success?
    ensures rate > 0 && m.totalBorrow.base > 0
    ensures Debt(m, p) > Start(m, p, rate)
    ensures Valid(m.config) && IsSolvent(m, p, rate, true) == Some(true) ==>
              Debt(m, p) == Start(m, p, rate) + 1
  {
    WithinPosition(m, p, rate, t);
    CF.NothingUpToStart(QueryOf(m, p, rate));
    StartAgreesWithSolvency(m, p, rate);
  }

  /** Such a user exists. */
  lemma SolventUserSized(c: Config)
    ensures var config := c.(liquidationCollateralizationRate := 80000, liquidationMultiplier := 12000,
                             liquidationBonusAmount := 10000);
            var m := MarketView(config, Rebase(1, 1), VaultRatio(1, 1), 100000);
            && IsSolvent(m, Position(1, 199), 10000000, true) == Some(true)
            && Size(m, Position(1, 199), 10000000, Terms(1, 0)) == Success(Seizure(1, 1, 100))
  {
    Pow10Values();
    var config := c.(liquidationCollateralizationRate := 80000, liquidationMultiplier := 12000,
                     liquidationBonusAmount := 10000);
    var m := MarketView(config, Rebase(1, 1), VaultRatio(1, 1), 100000);
    var p := Position(1, 199);
    assert UserValue(m, p, 10000000) == 1;
    var q := QueryOf(m, p, 10000000);
    assert q.Diff() == 89600 && q.Start() == 0 && q.Debt() == 1;
    CF.ClosedForm(q);
    assert Closing(m, p, 10000000) == Some(1);
    assert m.totalBorrow.ToElastic(1, true) == Some(1);
    assert WithBonus(1, 10000) == 1;
    assert ToShare(m.vault, MulDiv(1, 10000000, 100000)) == 100;
    assert SizeWith(m, p, 10000000, Terms(1, 0), Some(1)) == Success(Seizure(1, 1, 100));
  }

  // ---------- What a full liquidation achieves ----------

  lemma RemainingQuotient(before: nat, after: nat, precision: nat, amount: nat, rate: nat)
    requires rate > 0 && precision > 0
    requires after >= before - amount * rate / precision
    ensures after * precision / rate >= before * precision / rate - amount
  {
    var a := amount * rate / precision;
    DivBounds(amount * rate, precision);
    MulMono(before, after + a, precision);
    assert (after + a) * precision == after * precision + a * precision;
    DivMono(before * precision - amount * rate, after * precision, rate);
    DivShift(before * precision, rate, amount);
  }

  /** Seizing the shares of an amount lowers the value of what remains by at most that amount. */
  lemma RemainingValue(m: MarketView, p: Position, rate: nat, amount: nat)
    requires rate > 0 && m.ratePrecision > 0 && amount <= UserValue(m, p, rate)
    ensures ToShare(m.vault, MulDiv(amount, rate, m.ratePrecision)) <= p.collateralShare
    ensures UserValue(m, Position(0, p.collateralShare - ToShare(m.vault, MulDiv(amount, rate, m.ratePrecision))), rate)
            >= UserValue(m, p, rate) - amount
  {
    CoveredByShares(m, p, rate, amount);
    var a := MulDiv(amount, rate, m.ratePrecision);
    RemainingAmount(m.vault, p.collateralShare, a);
    var before := ToAmount(m.vault, p.collateralShare);
    var after := ToAmount(m.vault, p.collateralShare - ToShare(m.vault, a));
    RemainingQuotient(before, after, m.ratePrecision, amount, rate);
  }

  /** A bonus within the multiplier costs at most what the scaled rate accounts for, give or take its floor. */
  lemma BonusWithinMultiplier(amount: nat, bonus: nat, multiplier: nat, factor: nat)
    requires bonus <= multiplier
    ensures WithBonus(amount, bonus) * factor <= amount * (ScaledRate(factor, multiplier, 5) + 1)
    ensures factor * (100000 + multiplier) % 100000 == 0 ==>
              WithBonus(amount, bonus) * factor <= amount * ScaledRate(factor, multiplier, 5)
  {
    Pow10Values();
    var raised := 100000 + multiplier;
    var diff := ScaledRate(factor, multiplier, 5);
    BonusCost(amount, bonus, multiplier);
    CostAtFactor(amount, WithBonus(amount, bonus), raised, factor, diff + 1);
    if factor * raised % 100000 == 0 {
      CostAtFactor(amount, WithBonus(amount, bonus), raised, factor, diff);
    }
  }

  lemma BonusCost(amount: nat, bonus: nat, multiplier: nat)
    requires bonus <= multiplier
    ensures WithBonus(amount, bonus) * 100000 <= amount * (100000 + multiplier)
  {
    DivBounds(amount * bonus, FEE_PRECISION);
    MulMono(bonus, multiplier, amount);
  }

  lemma CostAtFactor(amount: nat, withBonus: nat, raised: nat, factor: nat, diff: nat)
    requires withBonus * 100000 <= amount * raised && factor * raised <= diff * 100000
    ensures withBonus * factor <= amount * diff
  {
    calc <= {
      withBonus * factor * 100000;
      == { assert withBonus * factor * 100000 == withBonus * 100000 * factor; }
      withBonus * 100000 * factor;
      { MulMono(withBonus * 100000, amount * raised, factor); }
      amount * raised * factor;
      == { assert amount * raised * factor == factor * raised * amount; }
      factor * raised * amount;
      { MulMono(factor * raised, diff * 100000, amount); }
      diff * 100000 * amount;
      == { assert diff * 100000 * amount == amount * diff * 100000; }
      amount * diff * 100000;
    }
    MulCancel(withBonus * factor, amount * diff, 100000);
  }

  /** The threshold moves with the value it is computed from. */
  lemma StartFollowsValue(value: nat, taken: nat, rest: nat, factor: nat)
    requires taken <= value && value - taken <= rest
    ensures LiquidationStart(rest, factor, 5) * 100000 + 100000
            > LiquidationStart(value, factor, 5) * 100000 - taken * factor
  {
    Pow10Values();
    DivBounds(rest * factor, 100000);
    DivBounds(value * factor, 100000);
    MulMono(value - taken, rest, factor);
    assert (value - taken) * factor == value * factor - taken * factor;
  }

  /** The full closing factor, in either branch, with the bonus inside the multiplier and a scaled rate below one. */
  predicate FullLiquidation(m: MarketView, p: Position, rate: nat, t: Terms) {
    && Size(m, p, rate, t).Success?
    && rate > 0 && Closing(m, p, rate).Some?
    && Closing(m, p, rate).value <= t.maxBorrowPart
    && m.config.liquidationBonusAmount <= m.config.liquidationMultiplier
    && ScaledRate(m.config.liquidationCollateralizationRate, m.config.liquidationMultiplier, 5) < 100000
  }

  /** The scaled rate loses nothing to its own floor. */
  predicate ExactScaledRate(c: Config) {
    c.liquidationCollateralizationRate * (100000 + c.liquidationMultiplier) % 100000 == 0
  }

  /** The arithmetic of the result below: old threshold, repayment and new threshold. */
  lemma CombineThresholds(debt: nat, start: nat, newStart: nat, diff: nat, x: nat, cost: int)
    requires x <= debt
    requires x < debt ==> CF.Leftover(debt, start, diff, x) < 100000
    requires newStart * 100000 + 100000 > start * 100000 - cost
    ensures cost <= x * (diff + 1) ==> (debt - x - newStart) * 100000 < 200000 + x
    ensures cost <= x * diff ==> debt - x <= newStart + 1
  {
    assert x * (diff + 1) == x * diff + x;
  }

  /**
   * The repaid amount brings the debt to less than two units above the threshold of the collateral
   * that is left, and one part in 100000 of the repaid amount where the scaled rate was floored; an
   * exact scaled rate leaves at most one unit. In the thin branch no collateral is left and the bounds
   * are a unit sharper: with an exact scaled rate the whole floored debt is repaid.
   */
  lemma FullLiquidationReachesThreshold(m: MarketView, p: Position, rate: nat, t: Terms)
    requires FullLiquidation(m, p, rate, t)
    ensures m.totalBorrow.base > 0
    ensures var s := Size(m, p, rate, t).value;
            && s.borrowAmount <= Debt(m, p) && s.collateralShare <= p.collateralShare
            && var start := StartAfter(m, p, rate, s);
               && (Debt(m, p) - s.borrowAmount - start) * 100000 < 200000 + s.borrowAmount
               && (ExactScaledRate(m.config) ==> Debt(m, p) - s.borrowAmount <= start + 1)
               && (Thin(m, p, rate, s) ==>
                   && start == 0
                   && (Debt(m, p) - s.borrowAmount) * 100000 < 100000 + s.borrowAmount
                   && (ExactScaledRate(m.config) ==> Debt(m, p) == s.borrowAmount))
  {
    ClosingIsTight(m, p, rate, t);
    NewStartBound(m, p, rate, t);
    var s, c := Size(m, p, rate, t).value, m.config;
    BonusWithinMultiplier(s.borrowAmount, c.liquidationBonusAmount, c.liquidationMultiplier,
                          c.liquidationCollateralizationRate);
    CombineThresholds(Debt(m, p), Start(m, p, rate), StartAfter(m, p, rate, s), QueryOf(m, p, rate).Diff(),
                      s.borrowAmount, ThresholdCost(m, s));
    if Thin(m, p, rate, s) {
      ThinReachesThreshold(m, p, rate, t);
      SeizureIsFair(m, p, rate, t);
      NoCollateralNoStart(m, Position(0, 0), rate);
    }
  }

  /** The liquidation start of the collateral a seizure leaves. */
  function StartAfter(m: MarketView, p: Position, rate: nat, s: Seizure): nat
    requires rate > 0 && s.collateralShare <= p.collateralShare
  {
    Start(m, Position(0, p.collateralShare - s.collateralShare), rate)
  }

  /** The repaid amount with its bonus, weighted by the liquidation rate: the most a seizure lowers the start by. */
  function ThresholdCost(m: MarketView, s: Seizure): nat {
    WithBonus(s.borrowAmount, m.config.liquidationBonusAmount) * m.config.liquidationCollateralizationRate
  }

  /** In either branch. */
  lemma NewStartBound(m: MarketView, p: Position, rate: nat, t: Terms)
    requires Size(m, p, rate, t).Success?
    ensures rate > 0
    ensures var s := Size(m, p, rate, t).value;
            && s.collateralShare <= p.collateralShare
            && StartAfter(m, p, rate, s) * 100000 + 100000 > Start(m, p, rate) * 100000 - ThresholdCost(m, s)
  {
    SuccessFacts(m, p, rate, t);
    WithinPosition(m, p, rate, t);
    var s := Size(m, p, rate, t).value;
    var taken := WithBonus(s.borrowAmount, m.config.liquidationBonusAmount);
    if Thin(m, p, rate, s) {
      StartBelowCost(UserValue(m, p, rate), taken, m.config.liquidationCollateralizationRate);
    } else {
      NewStart(m, p, rate, taken);
    }
  }

  /** The scaled rate with the bonus that is actually paid in place of the multiplier. */
  function PaidRate(c: Config): nat {
    ScaledRate(c.liquidationCollateralizationRate, c.liquidationBonusAmount, 5)
  }

  /**
   * Every liquidation, cut short or not, in either branch and at any rates: against the threshold of
   * the collateral that is left, the debt ends less than one unit, and one part in 100000 of the
   * repayment, above what the linear account at the paid bonus predicts.
   */
  lemma EveryLiquidationFollowsLeftover(m: MarketView, p: Position, rate: nat, t: Terms)
    requires Size(m, p, rate, t).Success?
    ensures rate > 0 && m.totalBorrow.base > 0
    ensures var s := Size(m, p, rate, t).value;
            && s.borrowAmount <= Debt(m, p) && s.collateralShare <= p.collateralShare
            && (Debt(m, p) - s.borrowAmount - StartAfter(m, p, rate, s)) * 100000
               < CF.Leftover(Debt(m, p), Start(m, p, rate), PaidRate(m.config), s.borrowAmount)
                 + s.borrowAmount + 100000
  {
    WithinPosition(m, p, rate, t);
    NewStartBound(m, p, rate, t);
    var s, c := Size(m, p, rate, t).value, m.config;
    BonusWithinMultiplier(s.borrowAmount, c.liquidationBonusAmount, c.liquidationBonusAmount,
                          c.liquidationCollateralizationRate);
    FollowLeftover(Debt(m, p), Start(m, p, rate), StartAfter(m, p, rate, s), PaidRate(c), s.borrowAmount,
                   ThresholdCost(m, s));
  }

  lemma FollowLeftover(debt: nat, start: nat, newStart: nat, diff: nat, x: nat, cost: int)
    requires x <= debt && cost <= x * (diff + 1)
    requires newStart * 100000 + 100000 > start * 100000 - cost
    ensures (debt - x - newStart) * 100000 < CF.Leftover(debt, start, diff, x) + x + 100000
  {
    assert x * (diff + 1) == x * diff + x;
  }

  // ---------- Nearer or farther ----------

  /** How much more value than the repayment asks can stay behind: the roundings of shares, amounts and values. */
  function ValueSlack(m: MarketView, rate: nat): nat
    requires rate > 0
  {
    CeilDiv((CeilDiv(m.vault.amount, m.vault.shares) + 1) * m.ratePrecision, rate)
  }

  lemma RemainingQuotientAtMost(before: nat, after: nat, precision: nat, amount: nat, rate: nat, worth: nat)
    requires rate > 0 && precision > 0
    requires after <= before - amount * rate / precision + worth
    ensures after * precision / rate
            <= before * precision / rate - amount + CeilDiv((worth + 1) * precision, rate)
  {
    var a, slack := amount * rate / precision, CeilDiv((worth + 1) * precision, rate);
    DivBounds(amount * rate, precision);
    CeilBounds((worth + 1) * precision, rate);
    MulMono(after, before - a + worth, precision);
    assert (before - a + worth) * precision == before * precision - a * precision + worth * precision;
    assert (worth + 1) * precision == worth * precision + precision;
    assert (amount - slack) * rate == amount * rate - slack * rate;
    DivMono(after * precision, before * precision - (amount - slack) * rate, rate);
    DivShift(before * precision, rate, amount - slack);
  }

  lemma RemainingValueAtMost(m: MarketView, p: Position, rate: nat, amount: nat)
    requires rate > 0 && m.ratePrecision > 0 && amount <= UserValue(m, p, rate)
    ensures ToShare(m.vault, MulDiv(amount, rate, m.ratePrecision)) <= p.collateralShare
    ensures UserValue(m, Position(0, p.collateralShare - ToShare(m.vault, MulDiv(amount, rate, m.ratePrecision))), rate)
            <= UserValue(m, p, rate) - amount + ValueSlack(m, rate)
  {
    CoveredByShares(m, p, rate, amount);
    var a := MulDiv(amount, rate, m.ratePrecision);
    RemainingAmountAtMost(m.vault, p.collateralShare, a);
    var before := ToAmount(m.vault, p.collateralShare);
    var after := ToAmount(m.vault, p.collateralShare - ToShare(m.vault, a));
    RemainingQuotientAtMost(before, after, m.ratePrecision, amount, rate, CeilDiv(m.vault.amount, m.vault.shares));
  }

  lemma StartFollowsAtMost(value: nat, taken: nat, rest: nat, factor: nat, slack: nat)
    requires taken <= value && rest <= value - taken + slack
    ensures LiquidationStart(rest, factor, 5) * 100000
            < LiquidationStart(value, factor, 5) * 100000 + 100000 - taken * factor + slack * factor
  {
    Pow10Values();
    DivBounds(rest * factor, 100000);
    DivBounds(value * factor, 100000);
    MulMono(rest, value - taken + slack, factor);
    assert (value - taken + slack) * factor == value * factor - taken * factor + slack * factor;
  }

  /** The paid bonus costs at least what the paid rate accounts for, short of its own floor. */
  lemma BonusCostsAtLeast(amount: nat, bonus: nat, factor: nat)
    ensures WithBonus(amount, bonus) * factor >= amount * ScaledRate(factor, bonus, 5) - factor
  {
    Pow10Values();
    var taken, diff := WithBonus(amount, bonus), ScaledRate(factor, bonus, 5);
    DivBounds(amount * bonus, FEE_PRECISION);
    assert (taken + 1) * 100000 >= amount * (100000 + bonus);
    DivBounds(factor * (100000 + bonus), 100000);
    CostAtLeast(amount, taken + 1, 100000 + bonus, factor, diff);
    assert (taken + 1) * factor == taken * factor + factor;
  }

  lemma CostAtLeast(amount: nat, taken: nat, raised: nat, factor: nat, diff: nat)
    requires taken * 100000 >= amount * raised && factor * raised >= diff * 100000
    ensures taken * factor >= amount * diff
  {
    calc >= {
      taken * factor * 100000;
      == { assert taken * factor * 100000 == taken * 100000 * factor; }
      taken * 100000 * factor;
      { MulMono(amount * raised, taken * 100000, factor); }
      amount * raised * factor;
      == { assert amount * raised * factor == factor * raised * amount; }
      factor * raised * amount;
      { MulMono(diff * 100000, factor * raised, amount); }
      diff * 100000 * amount;
      == { assert diff * 100000 * amount == amount * diff * 100000; }
      amount * diff * 100000;
    }
    MulCancel(amount * diff, taken * factor, 100000);
  }

  /**
   * The other half of the account, outside the thin branch: the debt ends no nearer the threshold than
   * the linear account at the paid bonus predicts, but for a bound on the roundings.
   */
  lemma EveryLiquidationKeepsLeftover(m: MarketView, p: Position, rate: nat, t: Terms)
    requires Size(m, p, rate, t).Success?
    ensures rate > 0 && m.totalBorrow.base > 0
    ensures var s, factor := Size(m, p, rate, t).value, m.config.liquidationCollateralizationRate;
            && s.borrowAmount <= Debt(m, p) && s.collateralShare <= p.collateralShare
            && (!Thin(m, p, rate, s) ==>
                (Debt(m, p) - s.borrowAmount - StartAfter(m, p, rate, s)) * 100000
                > CF.Leftover(Debt(m, p), Start(m, p, rate), PaidRate(m.config), s.borrowAmount)
                  - 100000 - (ValueSlack(m, rate) + 1) * factor)
  {
    WithinPosition(m, p, rate, t);
    SuccessFacts(m, p, rate, t);
    var s, c := Size(m, p, rate, t).value, m.config;
    if !Thin(m, p, rate, s) {
      NewStartAtMost(m, p, rate, WithBonus(s.borrowAmount, c.liquidationBonusAmount));
      BonusCostsAtLeast(s.borrowAmount, c.liquidationBonusAmount, c.liquidationCollateralizationRate);
      KeepLeftover(Debt(m, p), Start(m, p, rate), StartAfter(m, p, rate, s), PaidRate(c), s.borrowAmount,
                   ThresholdCost(m, s), ValueSlack(m, rate), c.liquidationCollateralizationRate);
    }
  }

  lemma NewStartAtMost(m: MarketView, p: Position, rate: nat, amount: nat)
    requires rate > 0 && m.ratePrecision > 0 && amount <= UserValue(m, p, rate)
    ensures var share := ToShare(m.vault, MulDiv(amount, rate, m.ratePrecision));
            var factor := m.config.liquidationCollateralizationRate;
            && share <= p.collateralShare
            && Start(m, Position(0, p.collateralShare - share), rate) * 100000
               < Start(m, p, rate) * 100000 + 100000 - amount * factor + ValueSlack(m, rate) * factor
  {
    RemainingValueAtMost(m, p, rate, amount);
    var share := ToShare(m.vault, MulDiv(amount, rate, m.ratePrecision));
    StartFollowsAtMost(UserValue(m, p, rate), amount,
                       UserValue(m, Position(0, p.collateralShare - share), rate),
                       m.config.liquidationCollateralizationRate, ValueSlack(m, rate));
  }

  lemma KeepLeftover(debt: nat, start: nat, newStart: nat, diff: nat, x: nat, cost: int, slack: nat, factor: nat)
    requires x <= debt && cost >= x * diff - factor
    requires newStart * 100000 < start * 100000 + 100000 - cost + slack * factor
    ensures (debt - x - newStart) * 100000 > CF.Leftover(debt, start, diff, x) - 100000 - (slack + 1) * factor
  {
    assert (slack + 1) * factor == slack * factor + factor;
  }

  /**
   * Which way a liquidation moves the user, measured by debt less liquidation start. Nearer once what
   * the paid rate leaves of the repayment outweighs the roundings; away, outside the thin branch, once
   * what it adds does. In the thin branch no collateral is left, and it is nearer exactly when more
   * than the old start is repaid.
   */
  lemma LiquidationDirection(m: MarketView, p: Position, rate: nat, t: Terms)
    requires Size(m, p, rate, t).Success?
    ensures rate > 0 && m.totalBorrow.base > 0
    ensures var s, paid := Size(m, p, rate, t).value, PaidRate(m.config);
            var x, factor := s.borrowAmount, m.config.liquidationCollateralizationRate;
            && s.collateralShare <= p.collateralShare
            && var before, after := Debt(m, p) - Start(m, p, rate), Debt(m, p) - x - StartAfter(m, p, rate, s);
               && (x * (100000 - paid) >= x + 100000 ==> after < before)
               && (!Thin(m, p, rate, s) && x * (paid - 100000) >= 100000 + (ValueSlack(m, rate) + 1) * factor ==>
                   after > before)
               && (Thin(m, p, rate, s) ==>
                   && StartAfter(m, p, rate, s) == 0
                   && (after < before <==> x > Start(m, p, rate))
                   && (after > before <==> x < Start(m, p, rate)))
  {
    EveryLiquidationFollowsLeftover(m, p, rate, t);
    EveryLiquidationKeepsLeftover(m, p, rate, t);
    var s, paid := Size(m, p, rate, t).value, PaidRate(m.config);
    var margin := 100000 + (ValueSlack(m, rate) + 1) * m.config.liquidationCollateralizationRate;
    NearerIf(Debt(m, p), Start(m, p, rate), StartAfter(m, p, rate, s), paid, s.borrowAmount);
    AwayIf(Debt(m, p), Start(m, p, rate), StartAfter(m, p, rate, s), paid, s.borrowAmount, margin);
    if Thin(m, p, rate, s) {
      ThinLeavesNoStart(m, p, rate, t);
    }
  }

  lemma NearerIf(debt: nat, start: nat, newStart: nat, paid: nat, x: nat)
    requires x <= debt
    requires (debt - x - newStart) * 100000 < CF.Leftover(debt, start, paid, x) + x + 100000
    ensures x * (100000 - paid) >= x + 100000 ==> debt - x - newStart < debt - start
  {
    CF.LeftoverIsLinear(debt, start, paid, x);
  }

  lemma AwayIf(debt: nat, start: nat, newStart: nat, paid: nat, x: nat, margin: int)
    requires x <= debt
    ensures && (debt - x - newStart) * 100000 > CF.Leftover(debt, start, paid, x) - margin
            && x * (paid - 100000) >= margin
            ==> debt - x - newStart > debt - start
  {
    CF.LeftoverIsLinear(debt, start, paid, x);
    assert x * (paid - 100000) == -(x * (100000 - paid));
  }

  lemma ThinLeavesNoStart(m: MarketView, p: Position, rate: nat, t: Terms)
    requires Size(m, p, rate, t).Success? && rate > 0 && Thin(m, p, rate, Size(m, p, rate, t).value)
    ensures Size(m, p, rate, t).value.collateralShare == p.collateralShare
    ensures StartAfter(m, p, rate, Size(m, p, rate, t).value) == 0
  {
    SeizureIsFair(m, p, rate, t);
    NoCollateralNoStart(m, Position(0, 0), rate);
  }

  /** A market of the two examples below: one share, one unit of collateral, one unit of debt per part. */
  function PlainMarket(c: Config, lcr: nat, bonus: nat): MarketView {
    MarketView(c.(collateralizationRate := 1, liquidationCollateralizationRate := lcr,
                  liquidationMultiplier := 12000, liquidationBonusAmount := bonus),
               Rebase(1000, 1000), VaultRatio(1, 1), 100000)
  }

  /** The sizing in such a market, given the amount the formula closes. */
  lemma PlainSize(c: Config, lcr: nat, bonus: nat, share: nat, x: nat)
    requires lcr <= 100000 && bonus < 100000
    requires var q := QueryOf(PlainMarket(c, lcr, bonus), Position(1000, share), 100000);
             q.Start() <= 1000 && q.Gap() != 0 && x == MulDiv(1000 - q.Start(), 100000, Abs(q.Gap()))
    requires 0 < x < 1000 && WithBonus(x, bonus) <= share
    ensures UserValue(PlainMarket(c, lcr, bonus), Position(1000, share), 100000) == share
    ensures Size(PlainMarket(c, lcr, bonus), Position(1000, share), 100000, Terms(1000, 0))
            == Success(Seizure(x, x, WithBonus(x, bonus)))
  {
    Pow10Values();
    var m, p := PlainMarket(c, lcr, bonus), Position(1000, share);
    var q := QueryOf(m, p, 100000);
    assert q.Debt() == 1000;
    CF.ClosedForm(q);
    assert Closing(m, p, 100000) == Some(x);
    assert UserValue(m, p, 100000) == share;
    assert m.totalBorrow.ToElastic(1000, true) == Some(1000);
    assert m.totalBorrow.ToBase(x, false) == Some(x);
    assert ToShare(m.vault, MulDiv(WithBonus(x, bonus), 100000, 100000)) == WithBonus(x, bonus);
  }

  /**
   * A liquidation that moves the user away, although the formula's own scaled rate is below one: the
   * bonus exceeds the multiplier, and the debt goes from 6 to 29 units above the start.
   */
  lemma LiquidationCanHarm(c: Config)
    requires Valid(c)
    ensures var m, p := PlainMarket(c, 88000, 20000), Position(1000, 1130);
            && Valid(m.config) && ScaledRate(88000, 12000, 5) < 100000
            && Size(m, p, 100000, Terms(1000, 0)) == Success(Seizure(416, 416, 499))
            && Debt(m, p) - Start(m, p, 100000) == 6
            && Debt(m, p) - 416 - StartAfter(m, p, 100000, Seizure(416, 416, 499)) == 29
  {
    Pow10Values();
    var m, p := PlainMarket(c, 88000, 20000), Position(1000, 1130);
    assert UserValue(m, p, 100000) == 1130 && UserValue(m, Position(0, 631), 100000) == 631;
    var q := QueryOf(m, p, 100000);
    assert q.Diff() == 98560 && q.Start() == 994;
    assert MulDiv(6, 100000, 1440) == 416 && WithBonus(416, 20000) == 499;
    PlainSize(c, 88000, 20000, 1130, 416);
  }

  /** And one that brings the user to safety, although that scaled rate is above one: the bonus is the smaller one. */
  lemma LiquidationCanHelp(c: Config)
    requires Valid(c)
    ensures var m, p := PlainMarket(c, 90000, 10000), Position(1000, 1105);
            && Valid(m.config) && ScaledRate(90000, 12000, 5) > 100000
            && Size(m, p, 100000, Terms(1000, 0)) == Success(Seizure(750, 750, 825))
            && Debt(m, p) - Start(m, p, 100000) == 6
            && Debt(m, p) - 750 - StartAfter(m, p, 100000, Seizure(750, 750, 825)) == -2
  {
    Pow10Values();
    var m, p := PlainMarket(c, 90000, 10000), Position(1000, 1105);
    assert UserValue(m, p, 100000) == 1105 && UserValue(m, Position(0, 280), 100000) == 280;
    var q := QueryOf(m, p, 100000);
    assert q.Diff() == 100800 && q.Start() == 994;
    assert MulDiv(6, 100000, 800) == 750 && WithBonus(750, 10000) == 825;
    PlainSize(c, 90000, 10000, 1105, 750);
  }

  /** The thin branch: the old threshold is already below the cost of the repayment with its bonus. */
  lemma ThinReachesThreshold(m: MarketView, p: Position, rate: nat, t: Terms)
    requires FullLiquidation(m, p, rate, t) && Thin(m, p, rate, Size(m, p, rate, t).value)
    ensures m.totalBorrow.base > 0
    ensures var s := Size(m, p, rate, t).value;
            && s.borrowAmount <= Debt(m, p)
            && (Debt(m, p) - s.borrowAmount) * 100000 < 100000 + s.borrowAmount
            && (ExactScaledRate(m.config) ==> Debt(m, p) == s.borrowAmount)
  {
    ClosingIsTight(m, p, rate, t);
    var x := Size(m, p, rate, t).value.borrowAmount;
    var factor := m.config.liquidationCollateralizationRate;
    var taken := WithBonus(x, m.config.liquidationBonusAmount);
    BonusWithinMultiplier(x, m.config.liquidationBonusAmount, m.config.liquidationMultiplier, factor);
    StartBelowCost(UserValue(m, p, rate), taken, factor);
    CombineThin(Debt(m, p), Start(m, p, rate), QueryOf(m, p, rate).Diff(), x, taken * factor);
  }

  lemma StartBelowCost(value: nat, taken: nat, factor: nat)
    requires value <= taken
    ensures LiquidationStart(value, factor, 5) * 100000 <= taken * factor
  {
    Pow10Values();
    DivBounds(value * factor, 100000);
    MulMono(value, taken, factor);
  }

  lemma CombineThin(debt: nat, start: nat, diff: nat, x: nat, cost: int)
    requires x <= debt
    requires x < debt ==> CF.Leftover(debt, start, diff, x) < 100000
    requires start * 100000 <= cost
    ensures cost <= x * (diff + 1) ==> (debt - x) * 100000 < 100000 + x
    ensures cost <= x * diff ==> debt == x
  {
    assert x * (diff + 1) == x * diff + x;
  }

  /** How far the seizure of an amount lowers the liquidation start. */
  lemma NewStart(m: MarketView, p: Position, rate: nat, amount: nat)
    requires rate > 0 && m.ratePrecision > 0 && amount <= UserValue(m, p, rate)
    ensures var share := ToShare(m.vault, MulDiv(amount, rate, m.ratePrecision));
            && share <= p.collateralShare
            && Start(m, Position(0, p.collateralShare - share), rate) * 100000 + 100000
               > Start(m, p, rate) * 100000 - amount * m.config.liquidationCollateralizationRate
  {
    RemainingValue(m, p, rate, amount);
    var share := ToShare(m.vault, MulDiv(amount, rate, m.ratePrecision));
    StartFollowsValue(UserValue(m, p, rate), amount, UserValue(m, Position(0, p.collateralShare - share), rate),
                      m.config.liquidationCollateralizationRate);
  }

  /** A full repayment short of the whole debt leaves less than one unit above the old threshold. */
  lemma ClosingIsTight(m: MarketView, p: Position, rate: nat, t: Terms)
    requires FullLiquidation(m, p, rate, t)
    ensures m.totalBorrow.base > 0
    ensures var s, q := Size(m, p, rate, t).value, QueryOf(m, p, rate);
            && s.borrowAmount <= Debt(m, p)
            && (s.borrowAmount < Debt(m, p) ==>
                CF.Leftover(Debt(m, p), Start(m, p, rate), q.Diff(), s.borrowAmount) < 100000)
  {
    SuccessFacts(m, p, rate, t);
    WithinPosition(m, p, rate, t);
    OnlyAboveStart(m, p, rate, t);
    Pow10Values();
    CF.Tight(QueryOf(m, p, rate));
  }

  /** A floored quotient, scaled to another denominator under which the fraction is no smaller. */
  lemma FractionCompare(left: nat, a: nat, b: nat, c: nat, e: nat)
    requires b > 0 && a * c <= e * b
    ensures MulDiv(left, a, b) * c <= left * e
  {
    var d := MulDiv(left, a, b);
    DivBounds(left * a, b);
    MulMono(d * b, left * a, c);
    MulMono(a * c, e * b, left);
    assert d * b * c == d * c * b;
    assert left * a * c == a * c * left;
    assert e * b * left == left * e * b;
    MulCancel(d * c, left * e, b);
  }

  /** Removing the floored number of parts leaves every part worth no more than it was. */
  lemma WorthPerPart(el: nat, base: nat, amount: nat, removed: nat)
    requires removed * el <= amount * base
    ensures (el - amount) * base <= el * (base - removed)
  {
    assert (el - amount) * base == el * base - amount * base;
    assert el * (base - removed) == el * base - removed * el;
  }

  /** The floored debt of the remaining parts at the old worth. */
  lemma RemainingDebt(part: nat, el: nat, base: nat, amount: nat, removed: nat, d: nat)
    requires base > 0 && removed <= part
    requires amount * base < removed * el + el
    requires d * base <= (part - removed) * el
    ensures d <= part * el / base - amount + CeilDiv(el, base)
  {
    var c := CeilDiv(el, base);
    CeilBounds(el, base);
    RemainingScaled(part, el, base, amount, removed, c);
    DivShift(part * el, base, amount - c);
    DivFloor(part * el - (amount - c) * base, base, d);
  }

  lemma RemainingScaled(part: nat, el: nat, base: nat, amount: nat, removed: nat, c: nat)
    requires removed <= part && amount * base < removed * el + el && el <= c * base
    ensures (part - removed) * el <= part * el - (amount - c) * base
  {
    assert (part - removed) * el == part * el - removed * el;
    assert (amount - c) * base == amount * base - c * base;
  }

  /** The updated totals raise the floored debt of what remains by at most one part's worth. */
  lemma DebtAfter(part: nat, total: Rebase, amount: nat, removed: nat)
    requires total.elastic > 0 && removed == total.ToBase(amount, false).value
    requires removed <= part && amount <= total.elastic && removed < total.base
    ensures DebtAmount(part - removed, Rebase(total.elastic - amount, total.base - removed)).value
            <= DebtAmount(part, total).value - amount + CeilDiv(total.elastic, total.base)
  {
    var el, base := total.elastic, total.base;
    DivBounds(amount * base, el);
    WorthPerPart(el, base, amount, removed);
    FractionCompare(part - removed, el - amount, base - removed, base, el);
    RemainingDebt(part, el, base, amount, removed, MulDiv(part - removed, el - amount, base - removed));
  }

  /** The same once the position and the totals are updated, up to the worth of one debt part. */
  lemma EveryLiquidationAfterUpdate(m: MarketView, p: Position, rate: nat, t: Terms)
    requires Size(m, p, rate, t).Success? && p.borrowPart <= m.totalBorrow.base
    ensures var s := Size(m, p, rate, t).value;
            && rate > 0 && m.totalBorrow.base > 0
            && s.borrowPart <= p.borrowPart && s.collateralShare <= p.collateralShare
            && s.borrowAmount <= m.totalBorrow.elastic
            && var m', p' := MarketAfter(m, s), PositionAfter(p, s);
               var slack := CeilDiv(m.totalBorrow.elastic, m.totalBorrow.base);
               && (m'.totalBorrow.base == 0 ==> p'.borrowPart == 0)
               && (m'.totalBorrow.base > 0 ==>
                   (Debt(m', p') - Start(m', p', rate) - slack) * 100000
                   < CF.Leftover(Debt(m, p), Start(m, p, rate), PaidRate(m.config), s.borrowAmount)
                     + s.borrowAmount + 100000)
  {
    WithinPosition(m, p, rate, t);
    EveryLiquidationFollowsLeftover(m, p, rate, t);
    RemainingDebtBound(m, p, rate, t);
    var s := Size(m, p, rate, t).value;
    if s.borrowPart < m.totalBorrow.base {
      StartIgnoresDebt(m, MarketAfter(m, s), PositionAfter(p, s), rate);
    }
  }

  /**
   * After the position and the totals are updated: neither subtraction underflows, and the user's debt
   * is within one unit, plus the worth of one debt part, of the new liquidation start.
   */
  lemma FullLiquidationNearsThreshold(m: MarketView, p: Position, rate: nat, t: Terms)
    requires FullLiquidation(m, p, rate, t) && p.borrowPart <= m.totalBorrow.base
    ensures var s := Size(m, p, rate, t).value;
            && m.totalBorrow.base > 0
            && s.borrowPart <= p.borrowPart && s.collateralShare <= p.collateralShare
            && s.borrowAmount <= m.totalBorrow.elastic
            && var m', p' := MarketAfter(m, s), PositionAfter(p, s);
               var slack := CeilDiv(m.totalBorrow.elastic, m.totalBorrow.base);
               && (m'.totalBorrow.base == 0 ==> p'.borrowPart == 0)
               && (m'.totalBorrow.base > 0 ==>
                   && (Debt(m', p') - Start(m', p', rate) - slack) * 100000 < 200000 + s.borrowAmount
                   && (ExactScaledRate(m.config) ==> Debt(m', p') <= Start(m', p', rate) + 1 + slack))
  {
    WithinPosition(m, p, rate, t);
    FullLiquidationReachesThreshold(m, p, rate, t);
    CF.DebtWithinTotal(QueryOf(m, p, rate));
    var s := Size(m, p, rate, t).value;
    if s.borrowPart < m.totalBorrow.base {
      RemainingDebtBound(m, p, rate, t);
      StartIgnoresDebt(m, MarketAfter(m, s), PositionAfter(p, s), rate);
    }
  }

  /** The start depends on the collateral only. */
  lemma StartIgnoresDebt(m: MarketView, m': MarketView, p: Position, rate: nat)
    requires rate > 0 && m' == m.(totalBorrow := m'.totalBorrow)
    ensures Start(m', p, rate) == Start(m, Position(0, p.collateralShare), rate)
  {
  }

  lemma NoPartsNoDebt(m: MarketView, p: Position)
    requires m.totalBorrow.base > 0 && p.borrowPart == 0
    ensures Debt(m, p) == 0
  {
  }

  lemma RemainingDebtBound(m: MarketView, p: Position, rate: nat, t: Terms)
    requires Size(m, p, rate, t).Success? && p.borrowPart <= m.totalBorrow.base
    ensures var s := Size(m, p, rate, t).value;
            && m.totalBorrow.base > 0
            && s.borrowPart <= p.borrowPart && s.borrowAmount <= m.totalBorrow.elastic
            && s.collateralShare <= p.collateralShare
            && (s.borrowPart < m.totalBorrow.base ==>
                Debt(MarketAfter(m, s), PositionAfter(p, s))
                <= Debt(m, p) - s.borrowAmount + CeilDiv(m.totalBorrow.elastic, m.totalBorrow.base))
  {
    WithinPosition(m, p, rate, t);
    SuccessFacts(m, p, rate, t);
    CF.DebtWithinTotal(QueryOf(m, p, rate));
    var s := Size(m, p, rate, t).value;
    if s.borrowPart < m.totalBorrow.base {
      if s.borrowAmount == TotalDebt(m, p) {
        NoPartsNoDebt(MarketAfter(m, s), PositionAfter(p, s));
      } else {
        DebtAfter(p.borrowPart, m.totalBorrow, s.borrowAmount, s.borrowPart);
      }
    }
  }

  // ---------- Everybody's debt after a liquidation ----------

  /** Removed parts pay for their worth, and are paid for up to one part's worth. */
  predicate PaidFor(el: nat, base: nat, amount: nat, removed: nat) {
    base > 0 && removed * el <= amount * base <= removed * el + CeilDiv(el, base) * base
  }

  lemma LiquidationPays(m: MarketView, p: Position, rate: nat, t: Terms)
    requires Size(m, p, rate, t).Success?
    ensures PaidFor(m.totalBorrow.elastic, m.totalBorrow.base, Size(m, p, rate, t).value.borrowAmount,
                    Size(m, p, rate, t).value.borrowPart)
  {
    SuccessFacts(m, p, rate, t);
    var el, base, s := m.totalBorrow.elastic, m.totalBorrow.base, Size(m, p, rate, t).value;
    if s.borrowAmount == TotalDebt(m, p) {
      PaysInFull(p.borrowPart, el, base);
    } else {
      PaysInPart(s.borrowAmount, el, base);
    }
  }

  lemma PaysInFull(part: nat, el: nat, base: nat)
    requires el > 0 && base > 0
    ensures PaidFor(el, base, CeilDiv(part * el, base), part)
  {
    CeilBounds(el, base);
    CeilBounds(part * el, base);
    var c, amount := CeilDiv(el, base), CeilDiv(part * el, base);
    assert c >= 1;
    MulMono(1, c, base);
    assert (amount - 1) * base == amount * base - base;
  }

  lemma PaysInPart(amount: nat, el: nat, base: nat)
    requires el > 0 && base > 0
    ensures PaidFor(el, base, amount, MulDiv(amount, base, el))
  {
    CeilBounds(el, base);
    DivBounds(amount * base, el);
  }

  /** Parts that stay are worth no more than before, and together lose less than the worth of one part. */
  lemma PartsKeepWorth(part: nat, el: nat, base: nat, amount: nat, removed: nat)
    requires PaidFor(el, base, amount, removed)
    requires amount <= el && removed < base && part <= base - removed
    ensures MulDiv(part, el - amount, base - removed) <= MulDiv(part, el, base)
    ensures MulDiv(part, el - amount, base - removed) >= MulDiv(part, el, base) - CeilDiv(el, base)
  {
    var d := MulDiv(part, el - amount, base - removed);
    WorthPerPart(el, base, amount, removed);
    FractionCompare(part, el - amount, base - removed, base, el);
    DivFloor(part * el, base, d);
    WorthStays(part, el, base, amount, removed, CeilDiv(el, base), MulDiv(part, el, base));
    DivFloor(part * (el - amount), base - removed, MulDiv(part, el, base) - CeilDiv(el, base));
  }

  lemma WorthStays(part: nat, el: nat, base: nat, amount: nat, removed: nat, c: nat, d: nat)
    requires base > 0 && amount <= el && removed < base && part <= base - removed
    requires amount * base <= removed * el + c * base
    requires d == part * el / base
    ensures (d - c) * (base - removed) <= part * (el - amount)
  {
    var rest := base - removed;
    DivBounds(part * el, base);
    WorthLeft(el, base, amount, removed, c);
    MulMono(el * rest - c * base, (el - amount) * base, part);
    MulMono(d * base, part * el, rest);
    MulMono(part, rest, c * base);
    WorthRegrouped(part, el, base, rest, c, d, el - amount);
    MulCancel((d - c) * rest, part * (el - amount), base);
  }

  lemma WorthLeft(el: nat, base: nat, amount: nat, removed: nat, c: nat)
    requires amount * base <= removed * el + c * base
    ensures (el - amount) * base >= el * (base - removed) - c * base
  {
    assert (el - amount) * base == el * base - amount * base;
    assert el * (base - removed) == el * base - removed * el;
  }

  lemma WorthRegrouped(part: nat, el: nat, base: nat, rest: nat, c: nat, d: nat, el': nat)
    requires (el * rest - c * base) * part <= el' * base * part
    requires d * base * rest <= part * el * rest && part * (c * base) <= rest * (c * base)
    ensures (d - c) * rest * base <= part * el' * base
  {
    assert (el * rest - c * base) * part == part * el * rest - part * (c * base);
    assert el' * base * part == part * el' * base;
    DifferenceRegrouped(d, c, rest, base);
  }

  lemma DifferenceRegrouped(d: nat, c: nat, rest: nat, base: nat)
    ensures (d - c) * rest * base == d * base * rest - rest * (c * base)
  {
    assert (d - c) * rest == d * rest - c * rest;
    assert d * rest * base == d * base * rest;
    assert c * rest * base == rest * (c * base);
  }

  /**
   * What a liquidation does to everybody else: the parts they hold stay, and whoever holds any of them
   * owes no more than before, and no less than before short of the worth of one part.
   */
  lemma OthersKeepDebt(m: MarketView, p: Position, rate: nat, t: Terms, other: Position)
    requires Size(m, p, rate, t).Success? && p.borrowPart <= m.totalBorrow.base
    requires other.borrowPart + Size(m, p, rate, t).value.borrowPart <= m.totalBorrow.base
    ensures var s := Size(m, p, rate, t).value;
            && m.totalBorrow.base > 0
            && s.borrowPart <= p.borrowPart && s.collateralShare <= p.collateralShare
            && s.borrowAmount <= m.totalBorrow.elastic
            && var m', p' := MarketAfter(m, s), PositionAfter(p, s);
               && m'.totalBorrow.base - p'.borrowPart == m.totalBorrow.base - p.borrowPart
               && (m'.totalBorrow.base > 0 ==>
                   Debt(m, other) - CeilDiv(m.totalBorrow.elastic, m.totalBorrow.base)
                   <= Debt(m', other) <= Debt(m, other))
  {
    RemainingDebtBound(m, p, rate, t);
    LiquidationPays(m, p, rate, t);
    var s := Size(m, p, rate, t).value;
    if s.borrowPart < m.totalBorrow.base {
      PartsKeepWorth(other.borrowPart, m.totalBorrow.elastic, m.totalBorrow.base, s.borrowAmount, s.borrowPart);
    }
  }

  /** The liquidated user's debt falls by the repaid amount, up to the worth of one part either way. */
  lemma DebtFallsByRepayment(m: MarketView, p: Position, rate: nat, t: Terms)
    requires Size(m, p, rate, t).Success? && p.borrowPart <= m.totalBorrow.base
    ensures var s := Size(m, p, rate, t).value;
            && m.totalBorrow.base > 0
            && s.borrowPart <= p.borrowPart && s.collateralShare <= p.collateralShare
            && s.borrowAmount <= m.totalBorrow.elastic
            && var m', p' := MarketAfter(m, s), PositionAfter(p, s);
               var slack := CeilDiv(m.totalBorrow.elastic, m.totalBorrow.base);
               (m'.totalBorrow.base > 0 ==>
                Debt(m, p) - s.borrowAmount - slack <= Debt(m', p') <= Debt(m, p) - s.borrowAmount + slack)
  {
    RemainingDebtBound(m, p, rate, t);
    LiquidationPays(m, p, rate, t);
    var s := Size(m, p, rate, t).value;
    if s.borrowPart < m.totalBorrow.base {
      OthersKeepDebt(m, p, rate, t, PositionAfter(p, s));
      RemainingAtLeast(p.borrowPart, m.totalBorrow.elastic, m.totalBorrow.base, s.borrowAmount, s.borrowPart);
    }
  }

  lemma RemainingAtLeast(part: nat, el: nat, base: nat, amount: nat, removed: nat)
    requires PaidFor(el, base, amount, removed) && removed <= part
    ensures MulDiv(part - removed, el, base) >= MulDiv(part, el, base) - amount
  {
    assert (part - removed) * el == part * el - removed * el;
    DivMono(part * el - amount * base, (part - removed) * el, base);
    DivShift(part * el, base, amount);
  }

  /** Such liquidations exist: 850 of debt against 1000 of collateral, of which 480 is repaid for 528. */
  lemma FullLiquidationExists(c: Config)
    ensures var config := c.(liquidationCollateralizationRate := 80000, liquidationMultiplier := 12000,
                             liquidationBonusAmount := 10000);
            var m := MarketView(config, Rebase(850, 850), VaultRatio(1, 1), 100000);
            && FullLiquidation(m, Position(850, 1000), 100000, Terms(850, 0))
            && ExactScaledRate(config)
            && Size(m, Position(850, 1000), 100000, Terms(850, 0)) == Success(Seizure(480, 480, 528))
  {
    Pow10Values();
    var config := c.(liquidationCollateralizationRate := 80000, liquidationMultiplier := 12000,
                     liquidationBonusAmount := 10000);
    var m := MarketView(config, Rebase(850, 850), VaultRatio(1, 1), 100000);
    var p := Position(850, 1000);
    assert UserValue(m, p, 100000) == 1000;
    var q := QueryOf(m, p, 100000);
    assert q.Diff() == 89600 && q.Start() == 800 && q.Debt() == 850;
    CF.ClosedForm(q);
    assert MulDiv(50, 100000, 10400) == 480;
    assert Closing(m, p, 100000) == Some(480);
    assert m.totalBorrow.ToElastic(850, true) == Some(850);
    assert m.totalBorrow.ToBase(480, false) == Some(480);
    assert WithBonus(480, 10000) == 528;
    assert ToShare(m.vault, MulDiv(528, 100000, 100000)) == 528;
    assert SizeWith(m, p, 100000, Terms(850, 0), Some(480)) == Success(Seizure(480, 480, 528));
  }
}
