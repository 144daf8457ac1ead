/** What the registry's listing and summing loops compute, and what that means for its markets. */
module RegistryViews {
  import opened Wrappers
  import opened Primitives
  import opened Sums
  import opened Registry

  // ---------- Listing clones ----------

  /** The clone lists of the given masters, one after the other. */
  function Flatten(r: RegistryState, masters: seq<Address>): seq<Address> {
    if masters == [] then []
    else Flatten(r, masters[..|masters| - 1]) + Clones(r, masters[|masters| - 1])
  }

  lemma {:induction false} FlattenSplit(r: RegistryState, front: seq<Address>, back: seq<Address>)
    ensures Flatten(r, front + back) == Flatten(r, front) + Flatten(r, back)
    decreases |back|
  {
    if back == [] {
      assert front + back == front;
    } else {
      var last := |back| - 1;
      assert (front + back)[..|front + back| - 1] == front + back[..last];
      FlattenSplit(r, front, back[..last]);
    }
  }

  /** One more master adds its list, and a prefix of the masters never lists more than all of them. */
  lemma FlattenStep(r: RegistryState, masters: seq<Address>, i: nat)
    requires i < |masters|
    ensures Flatten(r, masters[..i + 1]) == Flatten(r, masters[..i]) + Clones(r, masters[i])
    ensures |Flatten(r, masters[..i + 1])| <= |Flatten(r, masters)|
  {
    assert masters[..i + 1][..i] == masters[..i];
    assert masters == masters[..i + 1] + masters[i + 1..];
    FlattenSplit(r, masters[..i + 1], masters[i + 1..]);
  }

  /** Under the invariant distinct masters have disjoint lists, so the concatenation lists each market once. */
  lemma {:induction false} FlattenListsExactly(r: RegistryState, masters: seq<Address>)
    requires ClonesMatch(r) && NoDup(masters)
    ensures NoDup(Flatten(r, masters))
    ensures forall m :: m in Flatten(r, masters) <==> m in r.isMarket && Master(r, m) in masters
    decreases |masters|
  {
    if masters != [] {
      var last := |masters| - 1;
      var front, mc := masters[..last], masters[last];
      FlattenListsExactly(r, front);
      assert masters == front + [mc];
      var a, b := Flatten(r, front), Clones(r, mc);
      assert mc !in front;
      forall m
        ensures m in Flatten(r, masters) <==> m in r.isMarket && Master(r, m) in masters
      {
        assert m in a + b <==> m in a || m in b;
        assert Master(r, m) in masters <==> Master(r, m) in front || Master(r, m) == mc;
      }
      forall i, j | 0 <= i < |a| && 0 <= j < |b|
        ensures a[i] != b[j]
      {
        assert a[i] in a && b[j] in b;
      }
    }
  }

  function SingularityMarkets(r: RegistryState): seq<Address> {
    Flatten(r, r.singularityMasters)
  }

  function BigBangMarkets(r: RegistryState): seq<Address> {
    Flatten(r, r.bigBangMasters)
  }

  /** singularityMarkets() lists, once each, exactly the markets whose master is a registered Singularity one. */
  lemma SingularityMarketsExactly(r: RegistryState)
    requires Inv(r)
    ensures NoDup(SingularityMarkets(r))
    ensures forall m :: m in SingularityMarkets(r) <==> m in r.isMarket && Master(r, m) in r.isSingularityMaster
  {
    FlattenListsExactly(r, r.singularityMasters);
  }

  /**
   * bigBangMarkets() and allBigBangMarkets hold the same markets exactly when no market registered by
   * a Singularity call has a master that is also registered as a BigBang one.
   */
  lemma BigBangListsAgreeExactly(r: RegistryState)
    requires Inv(r)
    ensures NoDup(BigBangMarkets(r))
    ensures (forall m :: m in BigBangMarkets(r) <==> m in r.allBigBang)
            <==> (forall m | m in r.isMarket && m !in r.bigBangs :: Master(r, m) !in r.isBigBangMaster)
  {
    FlattenListsExactly(r, r.bigBangMasters);
    forall m
      ensures m in BigBangMarkets(r) <==> m in r.isMarket && Master(r, m) in r.isBigBangMaster
    {
    }
    if forall m :: m in BigBangMarkets(r) <==> m in r.allBigBang {
      forall m | m in r.isMarket && m !in r.bigBangs
        ensures Master(r, m) !in r.isBigBangMaster
      {
        assert m !in r.allBigBang;
      }
    }
  }

  // ---------- Summing debts ----------

  /** The loop of viewTotalDebt: listed markets that are still registered. */
  function TotalOver(list: seq<Address>, registered: set<Address>, debts: map<Address, nat>): nat {
    if list == [] then 0 else
      var last := list[|list| - 1];
      TotalOver(list[..|list| - 1], registered, debts) + (if last in registered then Lookup(debts, last) else 0)
  }

  /** The loop of mintOpenInterestDebt: consuming a market's debt also clears it. */
  function ConsumeOver(list: seq<Address>, registered: set<Address>, debts: map<Address, nat>)
    : (nat, map<Address, nat>)
  {
    if list == [] then (0, debts) else
      var (sum, rest) := ConsumeOver(list[..|list| - 1], registered, debts);
      var last := list[|list| - 1];
      if last in registered then (sum + Lookup(rest, last), rest[last := 0]) else (sum, rest)
  }

  function ToSet(list: seq<Address>): set<Address> {
    set a | a in list
  }

  /** Over a list without repetitions, in any order, the loop computes the sum over the set. */
  lemma {:induction false} TotalIsSetSum(list: seq<Address>, registered: set<Address>, debts: map<Address, nat>)
    requires NoDup(list)
    ensures TotalOver(list, registered, debts) == SumSet(ToSet(list) * registered, debts)
    decreases |list|
  {
    if list == [] {
      assert ToSet(list) * registered == {};
    } else {
      var front, last := list[..|list| - 1], list[|list| - 1];
      TotalIsSetSum(front, registered, debts);
      assert list == front + [last];
      if last in registered {
        SumSetWithout(ToSet(list) * registered, debts, last);
        assert ToSet(list) * registered - {last} == ToSet(front) * registered;
      } else {
        assert ToSet(list) * registered == ToSet(front) * registered;
      }
    }
  }

  /** Consuming is exact for any list, repetitions included: each registered market listed is consumed once. */
  lemma {:induction false} ConsumeIsSetSum(list: seq<Address>, registered: set<Address>, debts: map<Address, nat>)
    ensures var (sum, rest) := ConsumeOver(list, registered, debts);
            && sum == SumSet(ToSet(list) * registered, debts)
            && (forall a :: Lookup(rest, a) == if a in list && a in registered then 0 else Lookup(debts, a))
    decreases |list|
  {
    if list == [] {
      assert ToSet(list) * registered == {};
    } else {
      var front, last := list[..|list| - 1], list[|list| - 1];
      ConsumeIsSetSum(front, registered, debts);
      assert list == front + [last];
      var whole, part := ToSet(list) * registered, ToSet(front) * registered;
      if last in registered && last !in front {
        SumSetWithout(whole, debts, last);
        assert whole - {last} == part;
      } else {
        assert whole == part;
      }
    }
  }

  /** Under the invariant the total debt is the sum over the registered BigBang markets, each counted once. */
  lemma TotalDebtExactly(r: RegistryState, debts: map<Address, nat>)
    requires Inv(r)
    ensures TotalOver(r.allBigBang, r.isMarket, debts) == SumSet(r.bigBangs, debts)
  {
    TotalIsSetSum(r.allBigBang, r.isMarket, debts);
    assert ToSet(r.allBigBang) * r.isMarket == r.bigBangs;
  }

  /**
   * Under the invariant minting consumes exactly the total debt shown before it, clears every
   * registered BigBang market and no other, and leaves a total debt of zero.
   */
  lemma MintTakesTotalDebt(r: RegistryState, debts: map<Address, nat>)
    requires Inv(r)
    ensures var (sum, rest) := ConsumeOver(r.allBigBang, r.isMarket, debts);
            && sum == TotalOver(r.allBigBang, r.isMarket, debts)
            && (forall a :: Lookup(rest, a) == if a in r.bigBangs then 0 else Lookup(debts, a))
            && TotalOver(r.allBigBang, r.isMarket, rest) == 0
  {
    ConsumeIsSetSum(r.allBigBang, r.isMarket, debts);
    TotalIsSetSum(r.allBigBang, r.isMarket, debts);
    var rest := ConsumeOver(r.allBigBang, r.isMarket, debts).1;
    TotalIsSetSum(r.allBigBang, r.isMarket, rest);
    var listed := ToSet(r.allBigBang) * r.isMarket;
    SumSetAgree(listed, rest, map[]);
    NothingStored(listed);
  }

  lemma {:induction false} NothingStored(s: set<Address>)
    ensures SumSet(s, map[]) == 0
    decreases s
  {
    if s != {} {
      var k :| k in s;
      SumSetWithout(s, map[], k);
      NothingStored(s - {k});
    }
  }

  /** A BigBang market unregistered under the wrong type and added again is listed, and counted, twice. */
  lemma StaleEntryCountsTwice(mc: Address, market: Address)
    ensures var run := [RegisterBigBangMaster(mc), AddBigBang(mc, market),
                        Unregister(market, 0), AddBigBang(mc, market)];
            var r := Run(EMPTY, run);
            && r.allBigBang == [market, market] && market in r.isMarket
            && TotalOver(r.allBigBang, r.isMarket, map[market := 7]) == 14
            && ConsumeOver(r.allBigBang, r.isMarket, map[market := 7]).0 == 7
  {
    StaleEntryStates(mc, market);
    RunFour(EMPTY, RegisterBigBangMaster(mc), AddBigBang(mc, market), Unregister(market, 0), AddBigBang(mc, market));
    var twice, registered := [market, market], Run(EMPTY, [RegisterBigBangMaster(mc), AddBigBang(mc, market),
                                                           Unregister(market, 0), AddBigBang(mc, market)]).isMarket;
    assert twice[..1] == [market] && [market][..0] == [];
    assert TotalOver([market], registered, map[market := 7]) == 7;
    assert ConsumeOver([market], registered, map[market := 7]) == (7, map[market := 7][market := 0]);
  }

  lemma StaleEntryStates(mc: Address, market: Address)
    ensures var r3 := Step(Step(Step(EMPTY, RegisterBigBangMaster(mc)), AddBigBang(mc, market)), Unregister(market, 0));
            && r3.allBigBang == [market] && market !in r3.isMarket && r3.isBigBangMaster == {mc}
            && Step(r3, AddBigBang(mc, market)).allBigBang == [market, market]
            && market in Step(r3, AddBigBang(mc, market)).isMarket
  {
    var r1 := Step(EMPTY, RegisterBigBangMaster(mc));
    var r2 := Step(r1, AddBigBang(mc, market));
    assert Clones(r2, mc) == [market] && Master(r2, market) == mc;
    assert IndexOf([market], market) == Some(0) && SwapPop([market], 0) == [];
  }

  lemma RunFour(r: RegistryState, a: Op, b: Op, c: Op, d: Op)
    ensures Run(r, [a, b, c, d]) == Step(Step(Step(Step(r, a), b), c), d)
  {
    assert [a, b, c, d][1..] == [b, c, d] && [b, c, d][1..] == [c, d] && [c, d][1..] == [d] && [d][1..] == [];
    assert Run(r, [a, b, c, d]) == Run(Step(r, a), [b, c, d]);
    assert Run(Step(r, a), [b, c, d]) == Run(Step(Step(r, a), b), [c, d]);
    assert Run(Step(Step(r, a), b), [c, d]) == Run(Step(Step(Step(r, a), b), c), [d]);
  }
}
