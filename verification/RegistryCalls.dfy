/** When each owner call on the registry goes through, and everything it changes. */
module RegistryCalls {
  import opened Wrappers
  import opened Primitives
  import opened Registry

  // ---------- What stays ----------

  predicate SameMasters(r: RegistryState, s: RegistryState) {
    && s.singularityMasters == r.singularityMasters && s.isSingularityMaster == r.isSingularityMaster
    && s.bigBangMasters == r.bigBangMasters && s.isBigBangMaster == r.isBigBangMaster
  }

  predicate SameOrigins(r: RegistryState, s: RegistryState) {
    s.isOrigin == r.isOrigin && s.allOrigins == r.allOrigins
  }

  predicate SameBigBangs(r: RegistryState, s: RegistryState) {
    s.allBigBang == r.allBigBang && s.bigBangs == r.bigBangs
  }

  predicate SameMarkets(r: RegistryState, s: RegistryState) {
    s.isMarket == r.isMarket && s.masterOf == r.masterOf && s.clonesOf == r.clonesOf
  }

  // ---------- New entries ----------

  /** The clone is last in its master's list, has that master on record, and nothing else moved. */
  ghost predicate Listed(r: RegistryState, s: RegistryState, master: Address, clone: Address) {
    && SameMasters(r, s) && SameOrigins(r, s)
    && (forall a: Address :: Master(s, a) == if a == clone then master else Master(r, a))
    && (forall mc: Address :: Clones(s, mc) == if mc == master then Clones(r, mc) + [clone] else Clones(r, mc))
  }

  /** A bare deployment lists its clone without making it a market. */
  lemma DeployExactly(r: RegistryState, master: Address, d: Deployment)
    ensures Apply(r, Deploy(master, d)).Some? <==> master != ZERO_ADDRESS && d.initReturns
    ensures Apply(r, Deploy(master, d)).Some? ==>
              var s := Apply(r, Deploy(master, d)).value;
              Listed(r, s, master, d.clone) && SameBigBangs(r, s) && s.isMarket == r.isMarket
  {
  }

  /** A Singularity registration needs a registered master and a clone that exists and was initialised. */
  lemma RegisterSingularityExactly(r: RegistryState, master: Address, d: Deployment)
    ensures Apply(r, RegisterSingularity(master, d)).Some?
            <==> && master in r.isSingularityMaster && master != ZERO_ADDRESS
                 && d.initReturns && d.clone != ZERO_ADDRESS && d.hasCode
    ensures Apply(r, RegisterSingularity(master, d)).Some? ==>
              var s := Apply(r, RegisterSingularity(master, d)).value;
              && Listed(r, s, master, d.clone)
              && s.isMarket == r.isMarket + {d.clone}
              && s.allBigBang == r.allBigBang && s.bigBangs == r.bigBangs - {d.clone}
  {
  }

  /** A BigBang registration does, besides, put the market at the end of the BigBang list. */
  lemma RegisterBigBangExactly(r: RegistryState, master: Address, d: Deployment)
    ensures Apply(r, RegisterBigBang(master, d)).Some?
            <==> && master in r.isBigBangMaster && master != ZERO_ADDRESS
                 && d.initReturns && d.clone != ZERO_ADDRESS && d.hasCode
    ensures Apply(r, RegisterBigBang(master, d)).Some? ==>
              var s := Apply(r, RegisterBigBang(master, d)).value;
              && Listed(r, s, master, d.clone)
              && s.isMarket == r.isMarket + {d.clone}
              && s.allBigBang == r.allBigBang + [d.clone] && s.bigBangs == r.bigBangs + {d.clone}
  {
  }

  /** Adding an existing market needs a registered master and an address that is not a market yet. */
  lemma AddSingularityExactly(r: RegistryState, master: Address, market: Address)
    ensures Apply(r, AddSingularity(master, market)).Some?
            <==> master in r.isSingularityMaster && market !in r.isMarket
    ensures Apply(r, AddSingularity(master, market)).Some? ==>
              var s := Apply(r, AddSingularity(master, market)).value;
              && Listed(r, s, master, market)
              && s.isMarket == r.isMarket + {market} && SameBigBangs(r, s)
  {
  }

  lemma AddBigBangExactly(r: RegistryState, master: Address, market: Address)
    ensures Apply(r, AddBigBang(master, market)).Some?
            <==> master in r.isBigBangMaster && market !in r.isMarket
    ensures Apply(r, AddBigBang(master, market)).Some? ==>
              var s := Apply(r, AddBigBang(master, market)).value;
              && Listed(r, s, master, market)
              && s.isMarket == r.isMarket + {market}
              && s.allBigBang == r.allBigBang + [market] && s.bigBangs == r.bigBangs + {market}
  {
  }

  /** A master contract is registered once per kind, at the end of its kind's list, and touches no market. */
  lemma RegisterMasterExactly(r: RegistryState, master: Address)
    ensures Apply(r, RegisterSingularityMaster(master)).Some? <==> master !in r.isSingularityMaster
    ensures Apply(r, RegisterSingularityMaster(master)).Some? ==>
              var s := Apply(r, RegisterSingularityMaster(master)).value;
              && s.singularityMasters == r.singularityMasters + [master]
              && s.isSingularityMaster == r.isSingularityMaster + {master}
              && s.bigBangMasters == r.bigBangMasters && s.isBigBangMaster == r.isBigBangMaster
              && SameMarkets(r, s) && SameBigBangs(r, s) && SameOrigins(r, s)
    ensures Apply(r, RegisterBigBangMaster(master)).Some? <==> master !in r.isBigBangMaster
    ensures Apply(r, RegisterBigBangMaster(master)).Some? ==>
              var s := Apply(r, RegisterBigBangMaster(master)).value;
              && s.bigBangMasters == r.bigBangMasters + [master]
              && s.isBigBangMaster == r.isBigBangMaster + {master}
              && s.singularityMasters == r.singularityMasters && s.isSingularityMaster == r.isSingularityMaster
              && SameMarkets(r, s) && SameBigBangs(r, s) && SameOrigins(r, s)
  {
  }

  /** An Origins market is flagged once and listed, and becomes no market of the other kinds. */
  lemma AddOriginsExactly(r: RegistryState, market: Address)
    ensures Apply(r, AddOrigins(market)).Some? <==> market !in r.isOrigin
    ensures Apply(r, AddOrigins(market)).Some? ==>
              var s := Apply(r, AddOrigins(market)).value;
              && s.isOrigin == r.isOrigin + {market} && s.allOrigins == r.allOrigins + [market]
              && SameMasters(r, s) && SameMarkets(r, s) && SameBigBangs(r, s)
  {
  }

  // ---------- Removal ----------

  /** s without its entry i: the last entry moves into the hole. */
  predicate IsRemoval(s: seq<Address>, t: seq<Address>, a: Address, i: nat) {
    && i < |s| && s[i] == a && a !in s[..i]
    && t == if i == |s| - 1 then s[..i] else s[..i] + [s[|s| - 1]] + s[i + 1..|s| - 1]
  }

  /** Removal finds the first entry, fails exactly without one, and keeps the order but for the last entry. */
  lemma RemoveExactly(s: seq<Address>, a: Address)
    ensures Remove(s, a).Some? <==> a in s
    ensures Remove(s, a).Some? ==> exists i :: IsRemoval(s, Remove(s, a).value, a, i)
  {
    if Remove(s, a).Some? {
      var i := IndexOf(s, a).value;
      assert IsRemoval(s, SwapPop(s, i), a, i);
    }
  }

  /** What becomes of a list the call may or may not search. */
  ghost predicate RemovedIf(searched: bool, s: seq<Address>, t: seq<Address>, a: Address) {
    if searched then exists i :: IsRemoval(s, t, a, i) else t == s
  }

  /**
   * Unregistering, in any state: it goes through exactly when its searches find the market, in the list
   * of the recorded master and in the one its type names, and takes the market out of those two lists,
   * the flag and the record. Origins stay flagged.
   */
  lemma UnregisterEffects(r: RegistryState, market: Address, marketType: nat)
    ensures Apply(r, Unregister(market, marketType)).Some?
            <==> && market in Clones(r, Master(r, market))
                 && (marketType == 1 ==> market in r.allBigBang)
                 && (marketType == 2 ==> market in r.allOrigins)
    ensures Apply(r, Unregister(market, marketType)).Some? ==>
              var s := Apply(r, Unregister(market, marketType)).value;
              && SameMasters(r, s) && s.isOrigin == r.isOrigin
              && s.isMarket == r.isMarket - {market} && s.bigBangs == r.bigBangs - {market}
              && (forall a: Address :: Master(s, a) == if a == market then ZERO_ADDRESS else Master(r, a))
              && (forall mc: Address :: RemovedIf(mc == Master(r, market), Clones(r, mc), Clones(s, mc), market))
              && RemovedIf(marketType == 1, r.allBigBang, s.allBigBang, market)
              && RemovedIf(marketType == 2, r.allOrigins, s.allOrigins, market)
  {
    RemoveExactly(Clones(r, Master(r, market)), market);
    RemoveExactly(r.allBigBang, market);
    RemoveExactly(r.allOrigins, market);
  }
}
