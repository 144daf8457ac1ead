/** What the closing factor is worth: its definedness, tightness and monotonicity, and its 256-bit form. */
module ClosingFactorProperties {
  import opened Wrappers
  import opened Arithmetic
  import opened Conversions
  import opened MarketConfig
  import opened Market

  /** The arguments of one closing factor computation. */
  datatype Query = Query(part: nat, value: nat, precision: nat, startRate: nat, storedRate: nat,
                         multiplier: nat, total: Rebase)
  {
    function Answer(): Option<nat> {
      ClosingFactor(part, value, precision, startRate, storedRate, multiplier, total)
    }

    function Debt(): nat
      requires total.base != 0
    {
      DebtAmount(part, total).value
    }

    function Start(): nat {
      LiquidationStart(value, startRate, precision)
    }

    function Diff(): nat {
      ScaledRate(storedRate, multiplier, precision)
    }

    /** One minus the scaled rate, in units of 1/Pow10(precision); it can be zero or negative. */
    function Gap(): int {
      Pow10(precision) - Diff()
    }
  }

  /** It fails exactly when there are no debt parts, or the debt has reached the start and the gap is zero. */
  lemma DefinedExactly(q: Query)
    ensures q.Answer().Some? <==> q.total.base != 0 && (q.Debt() < q.Start() || q.Gap() != 0)
    ensures q.Answer().Some? ==> q.Answer().value <= q.Debt()
  {
  }

  /** The start and the scaled rate are floored at the precision of the call. */
  lemma QuotientsFloor(q: Query)
    ensures var unit := Pow10(q.precision);
            && q.Start() * unit <= q.value * q.startRate < (q.Start() + 1) * unit
            && q.Diff() * unit <= q.storedRate * (unit + q.multiplier) < (q.Diff() + 1) * unit
  {
    DivBounds(q.value * q.startRate, Pow10(q.precision));
    DivBounds(q.storedRate * (Pow10(q.precision) + q.multiplier), Pow10(q.precision));
  }

  /** The truncating signed division, whatever the sign of the gap, floors the magnitude. */
  lemma SignedQuotient(numerator: nat, gap: int)
    requires gap != 0
    ensures Abs(TruncDiv(numerator * 1000000000000000000, gap * 10000000000000))
            == MulDiv(numerator, 100000, Abs(gap))
  {
    assert numerator * 1000000000000000000 == numerator * 100000 * 10000000000000;
    assert Abs(gap * 10000000000000) == Abs(gap) * 10000000000000;
    DivCancel(numerator * 100000, Abs(gap), 10000000000000);
  }

  /** Once the debt has reached the start: the capped quotient, for either sign of the gap. */
  lemma ClosedForm(q: Query)
    requires q.total.base != 0 && q.Start() <= q.Debt() && q.Gap() != 0
    ensures q.Answer() == Some(Min(MulDiv(q.Debt() - q.Start(), 100000, Abs(q.Gap())), q.Debt()))
  {
    SignedQuotient(q.Debt() - q.Start(), q.Gap());
  }

  /** Up to the start itself there is nothing to close. */
  lemma NothingUpToStart(q: Query)
    requires q.Answer().Some?
    ensures q.total.base != 0
    ensures q.Debt() <= q.Start() ==> q.Answer() == Some(0)
  {
    if q.Start() <= q.Debt() <= q.Start() {
      ClosedForm(q);
      assert MulDiv(0, 100000, Abs(q.Gap())) == 0;
    }
  }

  // ---------- Tightness ----------

  /**
   * How far the user stays above the liquidation threshold, in units of 1/100000 of the asset, after
   * y of the debt is repaid and the collateral worth y times the multiplier is seized.
   */
  function Leftover(debt: nat, start: nat, diff: nat, y: nat): int {
    (debt - y) * 100000 - (start * 100000 - y * diff)
  }

  lemma LeftoverIsLinear(debt: nat, start: nat, diff: nat, y: nat)
    ensures Leftover(debt, start, diff, y) == (debt - start) * 100000 - y * (100000 - diff)
  {
  }

  /**
   * If collateral is seized at the multiplier, the closing factor is the largest repayment, among those
   * the debt allows, that does not overshoot the threshold; unless the whole debt is repaid the user
   * ends less than one unit above it.
   */
  lemma Tight(q: Query)
    requires q.precision == FEE_PRECISION_DECIMALS
    requires q.total.base != 0 && q.Start() <= q.Debt() && q.Diff() < 100000
    ensures q.Answer().Some?
    ensures forall y: nat | y <= q.Debt() ::
              Leftover(q.Debt(), q.Start(), q.Diff(), y) >= 0 <==> y <= q.Answer().value
    ensures q.Answer().value < q.Debt() ==>
              && 0 <= Leftover(q.Debt(), q.Start(), q.Diff(), q.Answer().value) < 100000 - q.Diff()
              && Leftover(q.Debt(), q.Start(), q.Diff(), q.Answer().value + 1) < 0
  {
    Pow10Values();
    ClosedForm(q);
    var numerator, gap := q.Debt() - q.Start(), 100000 - q.Diff();
    var x := MulDiv(numerator, 100000, gap);
    DivBounds(numerator * 100000, gap);
    forall y: nat
      ensures Leftover(q.Debt(), q.Start(), q.Diff(), y) >= 0 <==> y <= x
    {
      LeftoverIsLinear(q.Debt(), q.Start(), q.Diff(), y);
      DivFloor(numerator * 100000, gap, y);
    }
    LeftoverIsLinear(q.Debt(), q.Start(), q.Diff(), x);
  }

  /** A larger repayment leaves the user further above the threshold exactly when the scaled rate exceeds one. */
  lemma RepayingWorsens(debt: nat, start: nat, diff: nat, y: nat, z: nat)
    requires y < z
    ensures Leftover(debt, start, diff, y) < Leftover(debt, start, diff, z) <==> diff > 100000
    ensures Leftover(debt, start, diff, z) < Leftover(debt, start, diff, y) <==> diff < 100000
  {
    LeftoverIsLinear(debt, start, diff, y);
    LeftoverIsLinear(debt, start, diff, z);
    if diff >= 100000 {
      MulMono(y, z, diff - 100000);
      MulMono(y + 1, z, diff - 100000);
    } else {
      MulMono(y + 1, z, 100000 - diff);
    }
  }

  /**
   * If collateral is seized at the multiplier, repaying the closing factor brings the user nearer the
   * threshold exactly when the scaled rate is below one, and moves the user away exactly when it is
   * above one, provided the excess over the start is large enough for anything to be repaid at all.
   */
  lemma AnswerHelpsExactly(q: Query)
    requires q.precision == FEE_PRECISION_DECIMALS
    requires q.total.base != 0 && q.Start() < q.Debt() && q.Gap() != 0
    ensures q.Answer().Some?
    ensures var repays := (q.Debt() - q.Start()) * 100000 >= Abs(q.Gap());
            var before := Leftover(q.Debt(), q.Start(), q.Diff(), 0);
            var after := Leftover(q.Debt(), q.Start(), q.Diff(), q.Answer().value);
            && (after < before <==> repays && q.Diff() < 100000)
            && (after > before <==> repays && q.Diff() > 100000)
  {
    Pow10Values();
    ClosedForm(q);
    DivFloor((q.Debt() - q.Start()) * 100000, Abs(q.Gap()), 1);
    if q.Answer().value > 0 {
      RepayingWorsens(q.Debt(), q.Start(), q.Diff(), 0, q.Answer().value);
    }
  }

  /** A valid configuration excludes neither a scaled rate above one nor one of exactly one. */
  lemma ValidAllowsEitherSign(c: Config)
    requires Valid(c)
    ensures Valid(c.(collateralizationRate := 1, liquidationCollateralizationRate := 100000,
                     liquidationMultiplier := 12000))
    ensures ScaledRate(100000, 12000, 5) > Pow10(5)
    ensures Valid(c.(collateralizationRate := 1, liquidationCollateralizationRate := 80000,
                     liquidationMultiplier := 25000))
    ensures ScaledRate(80000, 25000, 5) == Pow10(5)
  {
    Pow10Values();
  }

  /** At fee precision, with a gap no larger than one, nothing may be repaid exactly up to the start. */
  lemma ZeroExactly(q: Query)
    requires q.precision == FEE_PRECISION_DECIMALS
    requires q.total.base != 0 && q.Gap() != 0 && Abs(q.Gap()) <= 100000
    ensures q.Answer() == Some(0) <==> q.Debt() <= q.Start()
  {
    if q.Start() <= q.Debt() {
      ClosedForm(q);
      var numerator := q.Debt() - q.Start();
      DivFloor(numerator * 100000, Abs(q.Gap()), 1);
    }
  }

  // ---------- Monotonicity ----------

  lemma MulDivMono(a: nat, b: nat, k: nat, d: nat)
    requires d > 0 && a <= b
    ensures MulDiv(a, k, d) <= MulDiv(b, k, d)
  {
    MulMono(a, b, k);
    DivMono(a * k, b * k, d);
  }

  /** More debt parts never lower the closing factor, and more collateral never raises it. */
  lemma Monotone(q: Query, r: Query)
    requires r == q.(part := r.part, value := r.value)
    requires q.part <= r.part && r.value <= q.value
    requires q.Answer().Some? && r.Answer().Some?
    ensures q.Answer().value <= r.Answer().value
  {
    MulDivMono(q.part, r.part, q.total.elastic, q.total.base);
    MulDivMono(r.value, q.value, q.startRate, Pow10(q.precision));
    if q.Start() <= q.Debt() {
      ClosedForm(q);
      ClosedForm(r);
      MulDivMono(q.Debt() - q.Start(), r.Debt() - r.Start(), 100000, Abs(q.Gap()));
    }
  }

  // ---------- 256-bit form ----------

  function Answer256(q: Query): Option<nat> {
    ClosingFactor256(q.part, q.value, q.precision, q.startRate, q.storedRate, q.multiplier, q.total)
  }

  lemma {:induction false} Pow10Mono(a: nat, b: nat)
    requires a <= b
    ensures Pow10(a) <= Pow10(b)
    decreases b
  {
    if a < b {
      Pow10Mono(a, b - 1);
    }
  }

  /** An exponent of 78 or more never fits, so the literal 1e5 passed as an exponent always reverts. */
  lemma LargeExponentReverts(q: Query)
    requires q.precision >= 78
    ensures Answer256(q) == None
  {
    Pow10TooLarge();
    Pow10Mono(78, q.precision);
  }

  /** Debts that occur: the parts of one user are among all parts, and the totals are uint128. */
  predicate InRange(q: Query) {
    q.part <= q.total.base && q.total.elastic <= MAX_UINT128 && q.total.base <= MAX_UINT128
  }

  lemma DebtWithinTotal(q: Query)
    requires q.total.base != 0 && q.part <= q.total.base
    ensures q.Debt() <= q.total.elastic
  {
    MulMono(q.part, q.total.base, q.total.elastic);
    DivMono(q.part * q.total.elastic, q.total.base * q.total.elastic, q.total.base);
    DivUnique(q.total.base * q.total.elastic, q.total.base, q.total.elastic);
  }

  /** Wherever the checked computation returns on such a debt, at fee precision, it returns the unbounded answer. */
  lemma CheckedAgrees(q: Query)
    requires InRange(q) && q.precision == FEE_PRECISION_DECIMALS
    requires Answer256(q).Some?
    ensures Answer256(q) == q.Answer()
  {
    Pow10Values();
    DebtWithinTotal(q);
    UpToTheSignedHalfIfAny(q);
    if q.Start() <= q.Debt() {
      CappedAgrees(q.Debt() - q.Start(), q.Diff(), q.Debt());
      ClosedForm(q);
    } else {
      BelowStart(q);
    }
  }

  lemma BelowStart(q: Query)
    requires q.total.base != 0 && q.Debt() < q.Start()
    ensures q.Answer() == Some(0)
  {
  }

  /** A computation that returns got through the unsigned half, and its scaled rate is far from wrapping. */
  lemma UpToTheSignedHalfIfAny(q: Query)
    requires q.precision == FEE_PRECISION_DECIMALS && Answer256(q).Some?
    ensures q.total.base != 0
    ensures q.Debt() < q.Start() ==> Answer256(q) == Some(0)
    ensures q.Start() <= q.Debt() ==>
              && q.Debt() <= MAX_UINT256 && q.Diff() <= MAX_INT256
              && Answer256(q) == Capped256(q.Debt() - q.Start(), 100000, q.Diff(), q.Debt())
  {
    Pow10Values();
  }

  /** Neither conversion wraps on such arguments, so a signed half that returns is the unbounded one. */
  lemma CappedAgrees(numerator: nat, diff: nat, debt: nat)
    requires numerator <= MAX_UINT128 && diff <= MAX_INT256
    requires Capped256(numerator, 100000, diff, debt).Some?
    ensures diff != 100000
    ensures Capped256(numerator, 100000, diff, debt)
            == Some(Min(MulDiv(numerator, 100000, Abs(100000 - diff)), debt))
  {
    assert Int256(diff) == diff && Int256(numerator) == numerator && Int256(100000) == 100000;
    SignedQuotient(numerator, 100000 - diff);
  }

  lemma QuotientInRange(numerator: nat, gap: int)
    requires gap != 0 && numerator <= MAX_UINT128
    ensures MulDiv(numerator, 100000, Abs(gap)) <= MAX_UINT128 * 100000
  {
    DivMono(numerator * 100000, MAX_UINT128 * 100000, Abs(gap));
    DivMono(MAX_UINT128 * 100000, MAX_UINT128 * 100000 * Abs(gap), Abs(gap));
    DivUnique(MAX_UINT128 * 100000 * Abs(gap), Abs(gap), MAX_UINT128 * 100000);
  }

  lemma CappedReturns(numerator: nat, diff: nat, debt: nat)
    requires numerator <= debt <= MAX_UINT128 && diff <= 200000 && diff != 100000
    ensures Capped256(numerator, 100000, diff, debt)
            == Some(Min(MulDiv(numerator, 100000, Abs(100000 - diff)), debt))
  {
    var gap := 100000 - diff;
    SignedQuotient(numerator, gap);
    QuotientInRange(numerator, gap);
    var denominator, scaled := gap * 10000000000000, numerator * 1000000000000000000;
    var x := TruncDiv(scaled, denominator);
    assert Abs(x) <= MAX_UINT128 * 100000;
    assert I256(gap) == Some(gap) && I256(denominator) == Some(denominator) && I256(scaled) == Some(scaled);
    assert I256(x) == Some(x);
  }

  lemma ZeroGapReverts(numerator: nat, debt: nat)
    requires numerator <= MAX_UINT128
    ensures Capped256(numerator, 100000, 100000, debt) == None
  {
  }

  lemma ScaledRateBound(rate: nat, multiplier: nat)
    requires rate <= 100000 && multiplier <= 100000
    ensures rate * (100000 + multiplier) <= 20000000000
    ensures ScaledRate(rate, multiplier, 5) <= 200000
  {
    Pow10Values();
    MulMono(rate, 100000, 100000 + multiplier);
    DivMono(rate * (100000 + multiplier), 20000000000, 100000);
  }

  /** The queries of a market: a user's share of uint128 totals, and fees of at most 1e5. */
  predicate InMarket(q: Query) {
    InRange(q) && q.startRate <= 100000 && q.storedRate <= 100000 && q.multiplier <= 100000
  }

  lemma ProductsFit(q: Query)
    requires InMarket(q)
    ensures q.part * q.total.elastic <= MAX_UINT256
    ensures q.storedRate * (100000 + q.multiplier) <= MAX_UINT256
  {
    MulMono(q.part, MAX_UINT128, q.total.elastic);
    ScaledRateBound(q.storedRate, q.multiplier);
  }

  /** Once the products fit, only the signed half is left to check. */
  lemma UpToTheSignedHalf(q: Query)
    requires q.total.base != 0 && q.precision == FEE_PRECISION_DECIMALS && q.multiplier <= 100000
    requires q.part * q.total.elastic <= MAX_UINT256 && q.value * q.startRate <= MAX_UINT256
    requires q.storedRate * (100000 + q.multiplier) <= MAX_UINT256
    requires q.Debt() <= MAX_UINT128 && q.Diff() <= 200000
    ensures Answer256(q) == if q.Debt() < q.Start() then Some(0)
                            else Capped256(q.Debt() - q.Start(), 100000, q.Diff(), q.Debt())
  {
    Pow10Values();
  }

  /**
   * In a market the checked computation at fee precision is the unbounded one, wherever that is defined
   * and wherever it is not, except that it reverts when the collateral value times the rate overflows.
   */
  lemma CheckedExactly(q: Query)
    requires InMarket(q) && q.precision == FEE_PRECISION_DECIMALS
    ensures Answer256(q) == if q.value * q.startRate <= MAX_UINT256 then q.Answer() else None
  {
    if q.value * q.startRate > MAX_UINT256 {
      OverflowReverts(q);
    } else if q.total.base != 0 {
      Pow10Values();
      DebtWithinTotal(q);
      ProductsFit(q);
      ScaledRateBound(q.storedRate, q.multiplier);
      UpToTheSignedHalf(q);
      SignedHalfExactly(q);
    }
  }

  lemma OverflowReverts(q: Query)
    requires q.value * q.startRate > MAX_UINT256
    ensures Answer256(q) == None
  {
  }

  lemma SignedHalfExactly(q: Query)
    requires q.precision == FEE_PRECISION_DECIMALS && q.total.base != 0
    requires q.Debt() <= MAX_UINT128 && q.Diff() <= 200000
    ensures q.Answer() == if q.Debt() < q.Start() then Some(0)
                          else Capped256(q.Debt() - q.Start(), 100000, q.Diff(), q.Debt())
  {
    Pow10Values();
    if q.Debt() < q.Start() {
      BelowStart(q);
    } else if q.Gap() == 0 {
      ZeroGapReverts(q.Debt() - q.Start(), q.Debt());
      DefinedExactly(q);
    } else {
      ClosedForm(q);
      CappedReturns(q.Debt() - q.Start(), q.Diff(), q.Debt());
    }
  }
}
