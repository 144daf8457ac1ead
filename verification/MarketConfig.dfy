/**
 * The configuration of a market and the two owner calls that change it
 * (contracts/markets/Market.sol).
 */
module MarketConfig {
  import opened Wrappers
  import opened Arithmetic
  import opened Primitives

  const FEE_PRECISION: nat := 100000

  /** The configuration fields of Market. */
  datatype Config = Config(
    oracle: Address,
    oracleData: seq<bv8>,
    conservator: Address,
    protocolFee: nat,
    liquidationBonusAmount: nat,
    minLiquidatorReward: nat,
    maxLiquidatorReward: nat,
    totalBorrowCap: nat,
    collateralizationRate: nat,
    liquidationCollateralizationRate: nat,
    liquidationMultiplier: nat,
    maxLiquidationSlippage: nat)

  /** The arguments of setMarketConfig. A zero, a zero address or empty data leaves its field alone. */
  datatype Update = Update(
    oracle: Address,
    oracleData: seq<bv8>,
    conservator: Address,
    protocolFee: nat,
    liquidationBonusAmount: nat,
    minLiquidatorReward: nat,
    maxLiquidatorReward: nat,
    totalBorrowCap: nat,
    collateralizationRate: nat,
    liquidationCollateralizationRate: nat)

  /** A rate that still covers the debt after the multiplier is added: CR * (1 + LM) < 1. */
  predicate BelowFullValue(rate: nat, multiplier: nat) {
    rate * (FEE_PRECISION + multiplier) < FEE_PRECISION * FEE_PRECISION
  }

  /** What every configuration reached from a valid one satisfies. */
  predicate Valid(c: Config) {
    && 0 < c.minLiquidatorReward < c.maxLiquidatorReward < FEE_PRECISION
    && c.collateralizationRate <= c.liquidationCollateralizationRate <= FEE_PRECISION
    && BelowFullValue(c.collateralizationRate, c.liquidationMultiplier)
    && c.protocolFee <= FEE_PRECISION
    && c.liquidationBonusAmount < FEE_PRECISION
    && c.maxLiquidationSlippage < FEE_PRECISION
  }

  /** An argument of zero keeps the stored value. */
  function Pick(stored: nat, argument: nat): nat {
    if argument > 0 then argument else stored
  }

  // Each section of setMarketConfig: the checks it makes and the fields it writes. The later
  // sections read what the earlier ones have already written.

  function SetAddresses(c: Config, u: Update): Config {
    c.(oracle := Pick(c.oracle, u.oracle),
       oracleData := if |u.oracleData| > 0 then u.oracleData else c.oracleData,
       conservator := Pick(c.conservator, u.conservator))
  }

  function SetFees(c: Config, u: Update): Option<Config> {
    var _ :- Require(u.protocolFee <= FEE_PRECISION);
    var _ :- Require(u.liquidationBonusAmount < FEE_PRECISION);
    Some(c.(protocolFee := Pick(c.protocolFee, u.protocolFee),
            liquidationBonusAmount := Pick(c.liquidationBonusAmount, u.liquidationBonusAmount)))
  }

  function SetMinReward(c: Config, v: nat): Option<Config> {
    if v == 0 then Some(c) else
      var _ :- Require(v < FEE_PRECISION && v < c.maxLiquidatorReward);
      Some(c.(minLiquidatorReward := v))
  }

  function SetMaxReward(c: Config, v: nat): Option<Config> {
    if v == 0 then Some(c) else
      var _ :- Require(v < FEE_PRECISION && v > c.minLiquidatorReward);
      Some(c.(maxLiquidatorReward := v))
  }

  function SetRate(c: Config, v: nat): Option<Config> {
    if v == 0 then Some(c) else
      var _ :- Require(v <= FEE_PRECISION && v <= c.liquidationCollateralizationRate);
      var _ :- Require(BelowFullValue(v, c.liquidationMultiplier));
      Some(c.(collateralizationRate := v))
  }

  function SetLiquidationRate(c: Config, v: nat): Option<Config> {
    if v == 0 then Some(c) else
      var _ :- Require(c.collateralizationRate <= v <= FEE_PRECISION);
      Some(c.(liquidationCollateralizationRate := v))
  }

  function SetFeesAndRewards(c: Config, u: Update): Option<Config> {
    var c :- SetFees(c, u);
    var c :- SetMinReward(c, u.minLiquidatorReward);
    SetMaxReward(c, u.maxLiquidatorReward)
  }

  function SetRates(c: Config, u: Update): Option<Config> {
    var c :- SetRate(c, u.collateralizationRate);
    SetLiquidationRate(c, u.liquidationCollateralizationRate)
  }

  /** setMarketConfig: None when a check fails, which reverts every write made before it. */
  function ApplyUpdate(c: Config, u: Update): Option<Config> {
    var c :- SetFeesAndRewards(SetAddresses(c, u), u);
    SetRates(c.(totalBorrowCap := Pick(c.totalBorrowCap, u.totalBorrowCap)), u)
  }

  function ApplySlippage(c: Config, v: nat): Option<Config> {
    if v < FEE_PRECISION then Some(c.(maxLiquidationSlippage := v)) else None
  }

  /** The contract's storage. */
  class ConfigStore {
    var oracle: Address
    var oracleData: seq<bv8>
    var conservator: Address
    var protocolFee: nat
    var liquidationBonusAmount: nat
    var minLiquidatorReward: nat
    var maxLiquidatorReward: nat
    var totalBorrowCap: nat
    var collateralizationRate: nat
    var liquidationCollateralizationRate: nat
    var liquidationMultiplier: nat
    var maxLiquidationSlippage: nat

    function State(): Config
      reads this
    {
      Config(oracle, oracleData, conservator, protocolFee, liquidationBonusAmount, minLiquidatorReward,
             maxLiquidatorReward, totalBorrowCap, collateralizationRate, liquidationCollateralizationRate,
             liquidationMultiplier, maxLiquidationSlippage)
    }

    constructor (c: Config)
      ensures State() == c
    {
      oracle, oracleData, conservator, protocolFee := c.oracle, c.oracleData, c.conservator, c.protocolFee;
      liquidationBonusAmount := c.liquidationBonusAmount;
      minLiquidatorReward, maxLiquidatorReward := c.minLiquidatorReward, c.maxLiquidatorReward;
      totalBorrowCap, collateralizationRate := c.totalBorrowCap, c.collateralizationRate;
      liquidationCollateralizationRate := c.liquidationCollateralizationRate;
      liquidationMultiplier, maxLiquidationSlippage := c.liquidationMultiplier, c.maxLiquidationSlippage;
    }

    /** Undoes the writes of a call that reverts; the multiplier and the slippage are never among them. */
    method Revert(c: Config)
      requires c.liquidationMultiplier == liquidationMultiplier
      requires c.maxLiquidationSlippage == maxLiquidationSlippage
      modifies this
      ensures State() == c
    {
      oracle, oracleData, conservator, protocolFee := c.oracle, c.oracleData, c.conservator, c.protocolFee;
      liquidationBonusAmount := c.liquidationBonusAmount;
      minLiquidatorReward, maxLiquidatorReward := c.minLiquidatorReward, c.maxLiquidatorReward;
      totalBorrowCap, collateralizationRate := c.totalBorrowCap, c.collateralizationRate;
      liquidationCollateralizationRate := c.liquidationCollateralizationRate;
    }

    method SetLiquidationMaxSlippage(v: nat) returns (ok: bool)
      modifies this
      ensures ok == ApplySlippage(old(State()), v).Some?
      ensures State() == ApplySlippage(old(State()), v).GetOr(old(State()))
    {
      ok := v < FEE_PRECISION;
      if ok {
        maxLiquidationSlippage := v;
      }
    }

    method SetMarketConfig(u: Update) returns (ok: bool)
      modifies this
      ensures ok == ApplyUpdate(old(State()), u).Some?
      ensures State() == ApplyUpdate(old(State()), u).GetOr(old(State()))
    {
      var before := State();
      ok := TryUpdate(u);
      if !ok {
        Revert(before);
      }
    }

    /** The body of setMarketConfig, up to the first failing check. */
    method TryUpdate(u: Update) returns (ok: bool)
      modifies this
      ensures liquidationMultiplier == old(liquidationMultiplier)
      ensures maxLiquidationSlippage == old(maxLiquidationSlippage)
      ensures ok == ApplyUpdate(old(State()), u).Some?
      ensures ok ==> State() == ApplyUpdate(old(State()), u).value
    {
      if u.oracle != ZERO_ADDRESS {
        oracle := u.oracle;
      }
      if |u.oracleData| > 0 {
        oracleData := u.oracleData;
      }
      if u.conservator != ZERO_ADDRESS {
        conservator := u.conservator;
      }
      assert State() == SetAddresses(old(State()), u);
      ok := TryFeesAndRewards(u);
      if !ok { return; }
      if u.totalBorrowCap > 0 {
        totalBorrowCap := u.totalBorrowCap;
      }
      ok := TryRates(u);
    }

    method TryFeesAndRewards(u: Update) returns (ok: bool)
      modifies this
      ensures liquidationMultiplier == old(liquidationMultiplier)
      ensures maxLiquidationSlippage == old(maxLiquidationSlippage)
      ensures ok == SetFeesAndRewards(old(State()), u).Some?
      ensures ok ==> State() == SetFeesAndRewards(old(State()), u).value
    {
      if u.protocolFee > 0 {
        if u.protocolFee > FEE_PRECISION { return false; }
        protocolFee := u.protocolFee;
      }
      if u.liquidationBonusAmount > 0 {
        if u.liquidationBonusAmount >= FEE_PRECISION { return false; }
        liquidationBonusAmount := u.liquidationBonusAmount;
      }
      assert Some(State()) == SetFees(old(State()), u);
      if u.minLiquidatorReward > 0 {
        if u.minLiquidatorReward >= FEE_PRECISION { return false; }
        if u.minLiquidatorReward >= maxLiquidatorReward { return false; }
        minLiquidatorReward := u.minLiquidatorReward;
      }
      if u.maxLiquidatorReward > 0 {
        if u.maxLiquidatorReward >= FEE_PRECISION { return false; }
        if u.maxLiquidatorReward <= minLiquidatorReward { return false; }
        maxLiquidatorReward := u.maxLiquidatorReward;
      }
      return true;
    }

    method TryRates(u: Update) returns (ok: bool)
      modifies this
      ensures liquidationMultiplier == old(liquidationMultiplier)
      ensures maxLiquidationSlippage == old(maxLiquidationSlippage)
      ensures ok == SetRates(old(State()), u).Some?
      ensures ok ==> State() == SetRates(old(State()), u).value
    {
      if u.collateralizationRate > 0 {
        var v := u.collateralizationRate;
        if v > FEE_PRECISION { return false; }
        if v > liquidationCollateralizationRate { return false; }
        if !BelowFullValue(v, liquidationMultiplier) { return false; }
        collateralizationRate := v;
      }
      if u.liquidationCollateralizationRate > 0 {
        if u.liquidationCollateralizationRate < collateralizationRate { return false; }
        if u.liquidationCollateralizationRate > FEE_PRECISION { return false; }
        liquidationCollateralizationRate := u.liquidationCollateralizationRate;
      }
      return true;
    }
  }

  // ---------- Runs ----------

  datatype Call = SetMarketConfig(update: Update) | SetLiquidationMaxSlippage(slippage: nat)

  /** One transaction: a call that reverts leaves the configuration as it was. */
  function Step(c: Config, call: Call): Config {
    match call
    case SetMarketConfig(u) => ApplyUpdate(c, u).GetOr(c)
    case SetLiquidationMaxSlippage(v) => ApplySlippage(c, v).GetOr(c)
  }

  function Run(c: Config, calls: seq<Call>): Config
    decreases calls
  {
    if calls == [] then c else Run(Step(c, calls[0]), calls[1..])
  }

  /** No field that setMarketConfig writes is zero in t unless it already was in c. */
  predicate NoneCleared(c: Config, t: Config) {
    && (t.oracle == ZERO_ADDRESS ==> c.oracle == ZERO_ADDRESS)
    && (t.oracleData == [] ==> c.oracleData == [])
    && (t.conservator == ZERO_ADDRESS ==> c.conservator == ZERO_ADDRESS)
    && (t.protocolFee == 0 ==> c.protocolFee == 0)
    && (t.liquidationBonusAmount == 0 ==> c.liquidationBonusAmount == 0)
    && (t.totalBorrowCap == 0 ==> c.totalBorrowCap == 0)
    && (t.collateralizationRate == 0 ==> c.collateralizationRate == 0)
    && (t.liquidationCollateralizationRate == 0 ==> c.liquidationCollateralizationRate == 0)
  }

  /** Every borrower within the rate stays covered by the collateral once the multiplier is added to the debt. */
  ghost predicate CoversMultiplier(rate: nat, multiplier: nat) {
    forall value: nat, debt: nat | value > 0 && debt * FEE_PRECISION <= value * rate ::
      debt * (FEE_PRECISION + multiplier) < value * FEE_PRECISION
  }

  /** That is what the check on the borrowing rate is for, and it admits exactly the rates for which it holds. */
  lemma BelowFullValueExactly(rate: nat, multiplier: nat)
    ensures BelowFullValue(rate, multiplier) <==> CoversMultiplier(rate, multiplier)
  {
    if BelowFullValue(rate, multiplier) {
      forall value: nat, debt: nat | value > 0 && debt * FEE_PRECISION <= value * rate
        ensures debt * (FEE_PRECISION + multiplier) < value * FEE_PRECISION
      {
        WithinFullValue(rate, FEE_PRECISION + multiplier, value, debt);
      }
    } else {
      assert FEE_PRECISION > 0 && rate * FEE_PRECISION <= FEE_PRECISION * rate;
    }
  }

  lemma WithinFullValue(rate: nat, raised: nat, value: nat, debt: nat)
    requires value > 0 && debt * FEE_PRECISION <= value * rate
    requires rate * raised < FEE_PRECISION * FEE_PRECISION
    ensures debt * raised < value * FEE_PRECISION
  {
    MulMono(debt * FEE_PRECISION, value * rate, raised);
    MulMono(rate * raised + 1, FEE_PRECISION * FEE_PRECISION, value);
    assert debt * FEE_PRECISION * raised == debt * raised * FEE_PRECISION;
    assert value * rate * raised == rate * raised * value;
    assert FEE_PRECISION * FEE_PRECISION * value == value * FEE_PRECISION * FEE_PRECISION;
    if value * FEE_PRECISION <= debt * raised {
      MulMono(value * FEE_PRECISION, debt * raised, FEE_PRECISION);
    }
  }

  /** What a call asks for: every argument that is not empty, over the stored configuration. */
  function Merged(c: Config, u: Update): Config {
    Config(Pick(c.oracle, u.oracle), if |u.oracleData| > 0 then u.oracleData else c.oracleData,
           Pick(c.conservator, u.conservator), Pick(c.protocolFee, u.protocolFee),
           Pick(c.liquidationBonusAmount, u.liquidationBonusAmount),
           Pick(c.minLiquidatorReward, u.minLiquidatorReward), Pick(c.maxLiquidatorReward, u.maxLiquidatorReward),
           Pick(c.totalBorrowCap, u.totalBorrowCap), Pick(c.collateralizationRate, u.collateralizationRate),
           Pick(c.liquidationCollateralizationRate, u.liquidationCollateralizationRate),
           c.liquidationMultiplier, c.maxLiquidationSlippage)
  }

  /** A call that succeeds has merged all of its arguments, in any configuration; one that fails an argument reverts. */
  lemma UpdateExactly(c: Config, u: Update)
    ensures var d := Merged(c, u);
            ApplyUpdate(c, u)
            == if && u.protocolFee <= FEE_PRECISION && u.liquidationBonusAmount < FEE_PRECISION
                  && (u.minLiquidatorReward > 0 ==> u.minLiquidatorReward < Min(FEE_PRECISION, c.maxLiquidatorReward))
                  && (u.maxLiquidatorReward > 0 ==> d.minLiquidatorReward < u.maxLiquidatorReward < FEE_PRECISION)
                  && (u.collateralizationRate > 0 ==>
                      && u.collateralizationRate <= Min(FEE_PRECISION, c.liquidationCollateralizationRate)
                      && BelowFullValue(u.collateralizationRate, c.liquidationMultiplier))
                  && (u.liquidationCollateralizationRate > 0 ==>
                      d.collateralizationRate <= u.liquidationCollateralizationRate <= FEE_PRECISION)
               then Some(d) else None
  {
  }

  /**
   * In a valid configuration a call goes through exactly when what it asks for is valid as a whole, and
   * its minimum reward and its rate also respect the bounds stored before the call.
   */
  lemma ValidUpdateExactly(c: Config, u: Update)
    requires Valid(c)
    ensures ApplyUpdate(c, u)
            == if && Valid(Merged(c, u))
                  && u.minLiquidatorReward < c.maxLiquidatorReward
                  && u.collateralizationRate <= c.liquidationCollateralizationRate
               then Some(Merged(c, u)) else None
  {
    UpdateExactly(c, u);
  }

  /** The slippage is stored exactly when it is below 1e5, and nothing else changes. */
  lemma SlippageExactly(c: Config, v: nat)
    ensures ApplySlippage(c, v).Some? <==> v < FEE_PRECISION
    ensures ApplySlippage(c, v).Some? ==> ApplySlippage(c, v).value == c.(maxLiquidationSlippage := v)
  {
  }

  lemma UpdateKeepsValid(c: Config, u: Update)
    requires Valid(c) && ApplyUpdate(c, u).Some?
    ensures var d := ApplyUpdate(c, u).value;
            Valid(d) && d.liquidationMultiplier == c.liquidationMultiplier && NoneCleared(c, d)
  {
    var fees := SetFeesAndRewards(SetAddresses(c, u), u).value;
    assert fees.liquidationMultiplier == c.liquidationMultiplier;
    assert Valid(fees);
  }

  /** Every run from a valid configuration stays valid, keeps the multiplier and clears no field. */
  lemma {:induction false} RunKeepsValid(c: Config, calls: seq<Call>)
    requires Valid(c)
    ensures Valid(Run(c, calls))
    ensures Run(c, calls).liquidationMultiplier == c.liquidationMultiplier
    ensures NoneCleared(c, Run(c, calls))
    decreases calls
  {
    if calls != [] {
      if calls[0].SetMarketConfig? && ApplyUpdate(c, calls[0].update).Some? {
        UpdateKeepsValid(c, calls[0].update);
      }
      RunKeepsValid(Step(c, calls[0]), calls[1..]);
    }
  }

  /** The call that names every field of t. */
  function UpdateTo(t: Config): Update {
    Update(t.oracle, t.oracleData, t.conservator, t.protocolFee, t.liquidationBonusAmount, t.minLiquidatorReward,
           t.maxLiquidatorReward, t.totalBorrowCap, t.collateralizationRate, t.liquidationCollateralizationRate)
  }

  /** A call that only makes room: it raises the bounds the checks of the next call will read. */
  function MakeRoom(c: Config, t: Config): Update {
    Update(ZERO_ADDRESS, [], ZERO_ADDRESS, 0, 0, 0,
           if t.minLiquidatorReward >= c.maxLiquidatorReward then t.maxLiquidatorReward else 0,
           0, 0,
           if t.collateralizationRate > c.liquidationCollateralizationRate
           then t.liquidationCollateralizationRate else 0)
  }

  /** The targets a run of calls can aim at. */
  predicate Attainable(c: Config, t: Config) {
    && Valid(t)
    && t.liquidationMultiplier == c.liquidationMultiplier
    && NoneCleared(c, t)
  }

  lemma NamedUpdateSucceeds(c: Config, t: Config)
    requires Attainable(c, t) && t.maxLiquidationSlippage == c.maxLiquidationSlippage
    requires t.minLiquidatorReward < c.maxLiquidatorReward
    requires t.collateralizationRate <= c.liquidationCollateralizationRate
    ensures ApplyUpdate(c, UpdateTo(t)) == Some(t)
  {
    var d := SetAddresses(c, UpdateTo(t));
    var e := d.(protocolFee := t.protocolFee, liquidationBonusAmount := t.liquidationBonusAmount,
                minLiquidatorReward := t.minLiquidatorReward, maxLiquidatorReward := t.maxLiquidatorReward);
    assert SetFeesAndRewards(d, UpdateTo(t)) == Some(e);
  }

  /**
   * One setMarketConfig call reaches t exactly when t's minimum reward is below the stored maximum
   * and t's rate is not above the stored liquidation rate: the two checks that depend on the order.
   */
  lemma OneCallSuffices(c: Config, t: Config)
    requires Valid(c) && Attainable(c, t) && t.maxLiquidationSlippage == c.maxLiquidationSlippage
    ensures (exists u :: ApplyUpdate(c, u) == Some(t))
            <==> (t.minLiquidatorReward < c.maxLiquidatorReward
                  && t.collateralizationRate <= c.liquidationCollateralizationRate)
  {
    if exists u :: ApplyUpdate(c, u) == Some(t) {
      var u :| ApplyUpdate(c, u) == Some(t);
    }
    if t.minLiquidatorReward < c.maxLiquidatorReward && t.collateralizationRate <= c.liquidationCollateralizationRate {
      NamedUpdateSucceeds(c, t);
    }
  }

  /** What MakeRoom leaves: t's maximum reward and liquidation rate wherever the stored ones were too low. */
  function Room(c: Config, t: Config): Config {
    c.(maxLiquidatorReward := Pick(c.maxLiquidatorReward, MakeRoom(c, t).maxLiquidatorReward),
       liquidationCollateralizationRate :=
         Pick(c.liquidationCollateralizationRate, MakeRoom(c, t).liquidationCollateralizationRate))
  }

  lemma MakeRoomSucceeds(c: Config, t: Config)
    requires Valid(c) && Attainable(c, t)
    ensures ApplyUpdate(c, MakeRoom(c, t)) == Some(Room(c, t))
  {
    var u := MakeRoom(c, t);
    assert SetAddresses(c, u) == c;
    assert SetFeesAndRewards(c, u) == Some(c.(maxLiquidatorReward := Room(c, t).maxLiquidatorReward));
  }

  /** Two setMarketConfig calls always suffice. */
  lemma TwoCallsSuffice(c: Config, t: Config)
    requires Valid(c) && Attainable(c, t) && t.maxLiquidationSlippage == c.maxLiquidationSlippage
    ensures Run(c, [SetMarketConfig(MakeRoom(c, t)), SetMarketConfig(UpdateTo(t))]) == t
  {
    MakeRoomSucceeds(c, t);
    var mid := Room(c, t);
    assert t.minLiquidatorReward < mid.maxLiquidatorReward;
    assert t.collateralizationRate <= mid.liquidationCollateralizationRate;
    NamedUpdateSucceeds(mid, t);
    RunTwo(c, MakeRoom(c, t), UpdateTo(t));
  }

  lemma RunTwo(c: Config, u: Update, v: Update)
    ensures Run(c, [SetMarketConfig(u), SetMarketConfig(v)])
            == Step(Step(c, SetMarketConfig(u)), SetMarketConfig(v))
  {
    var first, second := SetMarketConfig(u), SetMarketConfig(v);
    assert [first, second][1..] == [second] && [second][1..] == [];
    assert Run(Step(c, first), [second]) == Run(Step(Step(c, first), second), []);
  }

  /** The configurations reachable by any run at all are exactly the attainable ones. */
  lemma ReachableExactly(c: Config, t: Config)
    requires Valid(c)
    ensures (exists calls :: Run(c, calls) == t) <==> Attainable(c, t)
  {
    if exists calls :: Run(c, calls) == t {
      var calls :| Run(c, calls) == t;
      RunKeepsValid(c, calls);
    }
    if Attainable(c, t) {
      var slip := SetLiquidationMaxSlippage(t.maxLiquidationSlippage);
      var d := Step(c, slip);
      TwoCallsSuffice(d, t);
      var rest := [SetMarketConfig(MakeRoom(d, t)), SetMarketConfig(UpdateTo(t))];
      assert ([slip] + rest)[1..] == rest;
      assert Run(c, [slip] + rest) == t;
    }
  }
}
