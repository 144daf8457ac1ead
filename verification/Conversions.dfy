/** The two fixed-ratio conversions a market uses: debt parts to debt, and collateral shares to collateral. */
module Conversions {
  import opened Wrappers
  import opened Arithmetic

  /** Total debt (elastic) and the parts it is divided into (base). */
  datatype Rebase = Rebase(elastic: nat, base: nat) {
    function ToElastic(part: nat, roundUp: bool): Option<nat> {
      if base == 0 then Some(part) else
        var e := MulDiv(part, elastic, base);
        if !roundUp then Some(e)
        else
          var _ :- Require(elastic != 0);
          Some(if MulDiv(e, base, elastic) < part then e + 1 else e)
    }

    function ToBase(amount: nat, roundUp: bool): Option<nat> {
      if elastic == 0 then Some(amount) else
        var b := MulDiv(amount, base, elastic);
        if !roundUp then Some(b)
        else
          var _ :- Require(base != 0);
          Some(if MulDiv(b, elastic, base) < amount then b + 1 else b)
    }
  }

  /** One YieldBox asset: the amount held and the shares issued for it, both fixed during a call. */
  datatype VaultRatio = VaultRatio(amount: nat, shares: nat)

  type Vault = v: VaultRatio | v.amount > 0 && v.shares > 0 witness VaultRatio(1, 1)

  function ToAmount(v: Vault, share: nat): nat {
    MulDiv(share, v.amount, v.shares)
  }

  function ToShare(v: Vault, amount: nat): nat {
    MulDiv(amount, v.shares, v.amount)
  }

  /** The library's test for rounding up gives exactly the rounded-up quotient. */
  lemma ToElasticRoundsUp(r: Rebase, part: nat)
    requires r.elastic > 0 && r.base > 0
    ensures r.ToElastic(part, true) == Some(CeilDiv(part * r.elastic, r.base))
  {
    var n := part * r.elastic;
    var e := n / r.base;
    DivBounds(n, r.base);
    DivFloor(e * r.base, r.elastic, part);
    CeilBounds(n, r.base);
    if e * r.base == n {
      DivUnique(n + r.base - 1, r.base, e);
    } else {
      DivUnique(n + r.base - 1, r.base, e + 1);
    }
  }

  /** Amounts, shares and debt convert by floored quotients, whole when there is nothing to divide by. */
  lemma ConversionsFloor(v: Vault, r: Rebase, n: nat)
    ensures ToAmount(v, n) * v.shares <= n * v.amount < (ToAmount(v, n) + 1) * v.shares
    ensures ToShare(v, n) * v.amount <= n * v.shares < (ToShare(v, n) + 1) * v.amount
    ensures r.ToElastic(n, false).Some? && r.ToBase(n, false).Some?
    ensures var e, b := r.ToElastic(n, false).value, r.ToBase(n, false).value;
            && (if r.base == 0 then e == n else e * r.base <= n * r.elastic < (e + 1) * r.base)
            && (if r.elastic == 0 then b == n else b * r.elastic <= n * r.base < (b + 1) * r.elastic)
  {
    DivBounds(n * v.amount, v.shares);
    DivBounds(n * v.shares, v.amount);
  }

  /** A debt in parts, rounded up, is the rounded-up quotient as well. */
  lemma ToBaseRoundsUp(r: Rebase, amount: nat)
    requires r.elastic > 0 && r.base > 0
    ensures r.ToBase(amount, true) == Some(CeilDiv(amount * r.base, r.elastic))
  {
    ToElasticRoundsUp(Rebase(r.base, r.elastic), amount);
  }

  /** Depositing a withdrawal never yields more shares than were withdrawn. */
  lemma ShareRoundTrip(v: Vault, share: nat)
    ensures ToShare(v, ToAmount(v, share)) <= share
  {
    var a := ToAmount(v, share);
    DivBounds(share * v.amount, v.shares);
    DivMono(a * v.shares, share * v.amount, v.amount);
    DivUnique(share * v.amount, v.amount, share);
  }

  /** Withdrawing a deposit never yields more than was deposited. */
  lemma AmountRoundTrip(v: Vault, amount: nat)
    ensures ToAmount(v, ToShare(v, amount)) <= amount
  {
    var s := ToShare(v, amount);
    DivBounds(amount * v.shares, v.amount);
    DivMono(s * v.amount, amount * v.shares, v.shares);
    DivUnique(amount * v.shares, v.shares, amount);
  }

  lemma ToShareMono(v: Vault, a: nat, b: nat)
    requires a <= b
    ensures ToShare(v, a) <= ToShare(v, b)
  {
    MulMono(a, b, v.shares);
    DivMono(a * v.shares, b * v.shares, v.amount);
  }

  /** Taking out the shares of an amount costs the remaining shares at most that amount. */
  lemma RemainingAmount(v: Vault, share: nat, amount: nat)
    requires ToShare(v, amount) <= share
    ensures ToAmount(v, share - ToShare(v, amount)) >= ToAmount(v, share) - amount
  {
    var s := ToShare(v, amount);
    DivBounds(amount * v.shares, v.amount);
    assert (share - s) * v.amount == share * v.amount - s * v.amount;
    DivMono(share * v.amount - amount * v.shares, (share - s) * v.amount, v.shares);
    DivShift(share * v.amount, v.shares, amount);
  }

  /** And it costs them at least that amount, short of what one share is worth. */
  lemma RemainingAmountAtMost(v: Vault, share: nat, amount: nat)
    requires ToShare(v, amount) <= share
    ensures ToAmount(v, share - ToShare(v, amount))
            <= ToAmount(v, share) - amount + CeilDiv(v.amount, v.shares)
  {
    var s, worth := ToShare(v, amount), CeilDiv(v.amount, v.shares);
    DivBounds(amount * v.shares, v.amount);
    CeilBounds(v.amount, v.shares);
    assert (share - s) * v.amount == share * v.amount - s * v.amount;
    assert (amount - worth) * v.shares == amount * v.shares - worth * v.shares;
    DivMono((share - s) * v.amount, share * v.amount - (amount - worth) * v.shares, v.shares);
    DivShift(share * v.amount, v.shares, amount - worth);
  }
}
