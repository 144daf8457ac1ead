/**
 * The market registry of contracts/Penrose.sol: master contracts, their clones, and the list of
 * BigBang markets, kept in step by pushes and by swap-and-pop removals.
 */
module Registry {
  import opened Wrappers
  import opened Primitives

  /**
   * Penrose's storage. bigBangs is history: the markets last registered by a BigBang call and not
   * unregistered since.
   */
  datatype RegistryState = RegistryState(
    singularityMasters: seq<Address>,
    bigBangMasters: seq<Address>,
    isSingularityMaster: set<Address>,
    isBigBangMaster: set<Address>,
    isMarket: set<Address>,
    allBigBang: seq<Address>,
    isOrigin: set<Address>,
    allOrigins: seq<Address>,
    masterOf: map<Address, Address>,
    clonesOf: map<Address, seq<Address>>,
    bigBangs: set<Address>)

  const EMPTY := RegistryState([], [], {}, {}, {}, [], {}, [], map[], map[], {})

  function Clones(r: RegistryState, master: Address): seq<Address> {
    if master in r.clonesOf then r.clonesOf[master] else []
  }

  function Master(r: RegistryState, clone: Address): Address {
    Lookup(r.masterOf, clone)
  }

  /** The outcome of creating a clone and calling its init; a failed creation gives the zero address. */
  datatype Deployment = Deployment(clone: Address, hasCode: bool, initReturns: bool)

  datatype Op =
    | RegisterSingularityMaster(master: Address)
    | RegisterBigBangMaster(master: Address)
    | Deploy(master: Address, deployment: Deployment)
    | RegisterSingularity(master: Address, deployment: Deployment)
    | AddSingularity(master: Address, market: Address)
    | RegisterBigBang(master: Address, deployment: Deployment)
    | AddBigBang(master: Address, market: Address)
    | AddOrigins(market: Address)
    | Unregister(market: Address, marketType: nat)

  // ---------- Lists ----------

  /** The first index of a in s, if any. */
  function IndexOf(s: seq<Address>, a: Address): (i: Option<nat>)
    ensures i.Some? ==> i.value < |s| && s[i.value] == a && a !in s[..i.value]
    ensures i.None? ==> a !in s
  {
    if s == [] then None
    else if s[0] == a then Some(0)
    else
      var rest := IndexOf(s[1..], a);
      if rest.None? then None else
        assert s[..rest.value + 1] == [s[0]] + s[1..][..rest.value];
        Some(rest.value + 1)
  }

  /** The last element moves into the hole, and the list shrinks by one. */
  function SwapPop(s: seq<Address>, i: nat): seq<Address>
    requires i < |s|
  {
    s[i := s[|s| - 1]][..|s| - 1]
  }

  function Remove(s: seq<Address>, a: Address): Option<seq<Address>> {
    var i :- IndexOf(s, a);
    Some(SwapPop(s, i))
  }

  // ---------- Operations ----------

  function Push(r: RegistryState, master: Address, clone: Address): RegistryState {
    r.(clonesOf := r.clonesOf[master := Clones(r, master) + [clone]],
       masterOf := r.masterOf[clone := master])
  }

  function DeployClone(r: RegistryState, master: Address, d: Deployment): Option<RegistryState> {
    var _ :- Require(master != ZERO_ADDRESS);
    var _ :- Require(d.initReturns);
    Some(Push(r, master, d.clone))
  }

  /** The checks both register calls make on the clone they deployed. */
  function DeployMarket(r: RegistryState, master: Address, d: Deployment): Option<RegistryState> {
    var r :- DeployClone(r, master, d);
    var _ :- Require(d.clone != ZERO_ADDRESS && d.hasCode);
    Some(r.(isMarket := r.isMarket + {d.clone}))
  }

  function AddMarket(r: RegistryState, master: Address, market: Address): Option<RegistryState> {
    var _ :- Require(market !in r.isMarket);
    Some(Push(r.(isMarket := r.isMarket + {market}), master, market))
  }

  function ListBigBang(r: RegistryState, market: Address): RegistryState {
    r.(allBigBang := r.allBigBang + [market], bigBangs := r.bigBangs + {market})
  }

  /** Takes the market out of the list its type names: 1 for BigBang, 2 for Origins, none otherwise. */
  function Unlist(r: RegistryState, market: Address, marketType: nat): Option<RegistryState> {
    if marketType == 1 then
      var rest :- Remove(r.allBigBang, market);
      Some(r.(allBigBang := rest))
    else if marketType == 2 then
      var rest :- Remove(r.allOrigins, market);
      Some(r.(allOrigins := rest))
    else Some(r)
  }

  /** The writes unregisterContract makes before it searches any list. */
  function Forget(r: RegistryState, market: Address): RegistryState {
    r.(isMarket := r.isMarket - {market}, masterOf := r.masterOf - {market}, bigBangs := r.bigBangs - {market})
  }

  function RemoveClone(r: RegistryState, master: Address, market: Address): Option<RegistryState> {
    var clones :- Remove(Clones(r, master), market);
    Some(r.(clonesOf := r.clonesOf[master := clones]))
  }

  function UnregisterContract(r: RegistryState, market: Address, marketType: nat): Option<RegistryState> {
    var listed :- Unlist(Forget(r, market), market, marketType);
    RemoveClone(listed, Master(r, market), market)
  }

  /** One owner call; None is a revert. */
  function Apply(r: RegistryState, op: Op): Option<RegistryState> {
    match op
    case RegisterSingularityMaster(mc) =>
      var _ :- Require(mc !in r.isSingularityMaster);
      Some(r.(singularityMasters := r.singularityMasters + [mc], isSingularityMaster := r.isSingularityMaster + {mc}))
    case RegisterBigBangMaster(mc) =>
      var _ :- Require(mc !in r.isBigBangMaster);
      Some(r.(bigBangMasters := r.bigBangMasters + [mc], isBigBangMaster := r.isBigBangMaster + {mc}))
    case Deploy(mc, d) => DeployClone(r, mc, d)
    case RegisterSingularity(mc, d) =>
      var _ :- Require(mc in r.isSingularityMaster);
      var r :- DeployMarket(r, mc, d);
      Some(r.(bigBangs := r.bigBangs - {d.clone}))
    case AddSingularity(mc, market) =>
      var _ :- Require(mc in r.isSingularityMaster);
      AddMarket(r, mc, market)
    case RegisterBigBang(mc, d) =>
      var _ :- Require(mc in r.isBigBangMaster);
      var r :- DeployMarket(r, mc, d);
      Some(ListBigBang(r, d.clone))
    case AddBigBang(mc, market) =>
      var _ :- Require(mc in r.isBigBangMaster);
      var r :- AddMarket(r, mc, market);
      Some(ListBigBang(r, market))
    case AddOrigins(market) =>
      var _ :- Require(market !in r.isOrigin);
      Some(r.(isOrigin := r.isOrigin + {market}, allOrigins := r.allOrigins + [market]))
    case Unregister(market, marketType) => UnregisterContract(r, market, marketType)
  }

  // ---------- The invariant ----------

  predicate NoDup(s: seq<Address>) {
    forall i, j | 0 <= i < j < |s| :: s[i] != s[j]
  }

  ghost predicate ListsExactly(s: seq<Address>, t: set<Address>) {
    NoDup(s) && forall a :: a in s <==> a in t
  }

  /** Every clone list holds distinct registered markets whose recorded master is that list's. */
  ghost predicate ClonesMatch(r: RegistryState) {
    && (forall mc :: NoDup(Clones(r, mc)))
    && (forall mc, m | m in Clones(r, mc) :: m in r.isMarket && Master(r, m) == mc)
    && (forall m | m in r.isMarket :: m in Clones(r, Master(r, m)))
  }

  /** Each list holds, once each, exactly what its flag or history says. */
  ghost predicate ListsMatch(r: RegistryState) {
    && ListsExactly(r.singularityMasters, r.isSingularityMaster)
    && ListsExactly(r.bigBangMasters, r.isBigBangMaster)
    && ListsExactly(r.allBigBang, r.bigBangs)
  }

  /** Each market's master is registered for the kind of call that registered the market. */
  ghost predicate KindsMatch(r: RegistryState) {
    && r.bigBangs <= r.isMarket
    && (forall m | m in r.bigBangs :: Master(r, m) in r.isBigBangMaster)
    && (forall m | m in r.isMarket && m !in r.bigBangs :: Master(r, m) in r.isSingularityMaster)
  }

  ghost predicate Inv(r: RegistryState) {
    ClonesMatch(r) && ListsMatch(r) && KindsMatch(r)
  }

  /**
   * Calls that cannot break the registry. A registering call must deploy to an address that is not
   * already a market, a bare deployment lists a clone nobody registered, and a BigBang market has to
   * be unregistered as one.
   */
  predicate Safe(r: RegistryState, op: Op) {
    match op
    case Deploy(_, _) => false
    case RegisterSingularity(_, d) => d.clone !in r.isMarket
    case RegisterBigBang(_, d) => d.clone !in r.isMarket
    case Unregister(market, marketType) => marketType == 1 || market !in r.bigBangs
    case _ => true
  }

  lemma SwapPopLists(s: seq<Address>, a: Address)
    requires NoDup(s) && a in s
    ensures Remove(s, a).Some?
    ensures NoDup(Remove(s, a).value)
    ensures forall b :: b in Remove(s, a).value <==> b in s && b != a
  {
    var i := IndexOf(s, a).value;
    var t := SwapPop(s, i);
    forall b | b in s && b != a
      ensures b in t
    {
      var k :| 0 <= k < |s| && s[k] == b;
      if k == |s| - 1 {
        assert t[i] == b;
      } else {
        assert t[k] == b;
      }
    }
  }

  /** A new market at the end of its master's list. */
  lemma PushKeepsMatch(r: RegistryState, master: Address, market: Address)
    requires ClonesMatch(r) && market !in r.isMarket
    ensures ClonesMatch(Push(r.(isMarket := r.isMarket + {market}), master, market))
  {
    var s := Push(r.(isMarket := r.isMarket + {market}), master, market);
    forall mc
      ensures NoDup(Clones(s, mc))
      ensures forall m | m in Clones(s, mc) :: m in s.isMarket && Master(s, m) == mc
    {
      assert Clones(s, mc) == if mc == master then Clones(r, mc) + [market] else Clones(r, mc);
      forall m | m in Clones(s, mc)
        ensures m in s.isMarket && Master(s, m) == mc
      {
        if m != market {
          assert m in Clones(r, mc);
        } else {
          assert market !in Clones(r, mc);
        }
      }
    }
  }

  /** Listing an address that is already a market, or never becomes one, breaks the match. */
  lemma PushBreaksMatch(r: RegistryState, s: RegistryState, master: Address, clone: Address)
    requires ClonesMatch(r)
    requires s.clonesOf == Push(r, master, clone).clonesOf && s.masterOf == Push(r, master, clone).masterOf
    requires clone in r.isMarket || clone !in s.isMarket
    ensures !ClonesMatch(s)
  {
    var home := Clones(r, Master(r, clone));
    assert Clones(s, master) == Clones(r, master) + [clone];
    assert Clones(s, master)[|Clones(r, master)|] == clone;
    if clone in r.isMarket {
      var i :| 0 <= i < |home| && home[i] == clone;
      if Master(r, clone) == master {
        assert Clones(s, master)[i] == clone;
      } else {
        assert Clones(s, Master(r, clone)) == home && clone in home;
        assert Master(s, clone) == master;
      }
    }
  }

  /** The clone lists after a successful unregistering call. */
  lemma UnregisterKeepsMatch(r: RegistryState, market: Address, marketType: nat)
    requires ClonesMatch(r) && UnregisterContract(r, market, marketType).Some?
    ensures market in r.isMarket
    ensures ClonesMatch(UnregisterContract(r, market, marketType).value)
  {
    var s := UnregisterContract(r, market, marketType).value;
    forall mc
      ensures NoDup(Clones(s, mc))
      ensures forall m :: m in Clones(s, mc) <==> m in Clones(r, mc) && m != market
    {
      UnregisterClones(r, market, marketType, mc);
    }
    UnregisterClones(r, market, marketType, Master(r, market));
    MatchWithout(r, s, market);
  }

  /** One market taken out everywhere. */
  lemma MatchWithout(r: RegistryState, s: RegistryState, market: Address)
    requires ClonesMatch(r)
    requires s.isMarket == r.isMarket - {market} && s.masterOf == r.masterOf - {market}
    requires forall mc :: NoDup(Clones(s, mc)) && forall m :: m in Clones(s, mc) <==> m in Clones(r, mc) && m != market
    ensures ClonesMatch(s)
  {
    forall m | m != market ensures Master(s, m) == Master(r, m) {}
  }

  lemma UnregisterClones(r: RegistryState, market: Address, marketType: nat, mc: Address)
    requires ClonesMatch(r) && UnregisterContract(r, market, marketType).Some?
    ensures var s := UnregisterContract(r, market, marketType).value;
            && NoDup(Clones(s, mc))
            && (forall m :: m in Clones(s, mc) <==> m in Clones(r, mc) && m != market)
            && market in Clones(r, Master(r, market))
            && s.isMarket == r.isMarket - {market} && s.masterOf == r.masterOf - {market}
  {
    var s := UnregisterContract(r, market, marketType).value;
    var master := Master(r, market);
    assert market in Clones(r, master);
    SwapPopLists(Clones(r, master), market);
    if mc == master {
      assert Clones(s, mc) == Remove(Clones(r, master), market).value;
    } else {
      assert Clones(s, mc) == Clones(r, mc);
    }
  }

  /** When unregistering goes through: a registered market, listed where the given type says it is. */
  lemma UnregisterExactly(r: RegistryState, market: Address, marketType: nat)
    requires Inv(r)
    ensures UnregisterContract(r, market, marketType).Some?
            <==> && market in r.isMarket
                 && (marketType == 1 ==> market in r.bigBangs)
                 && (marketType == 2 ==> market in r.allOrigins)
  {
  }

  /** The kinds of the markets that stay registered, under the same masters, still match. */
  lemma KindsCarryOver(r: RegistryState, s: RegistryState)
    requires KindsMatch(r)
    requires s.isMarket <= r.isMarket && s.bigBangs == r.bigBangs * s.isMarket
    requires s.isBigBangMaster == r.isBigBangMaster && s.isSingularityMaster == r.isSingularityMaster
    requires forall m | m in s.isMarket :: Master(s, m) == Master(r, m)
    ensures KindsMatch(s)
  {
  }

  lemma UnregisterKeepsInv(r: RegistryState, market: Address, marketType: nat)
    requires Inv(r) && UnregisterContract(r, market, marketType).Some?
    ensures Inv(UnregisterContract(r, market, marketType).value) <==> Safe(r, Unregister(market, marketType))
  {
    UnregisterKeepsMatch(r, market, marketType);
    var s := UnregisterContract(r, market, marketType).value;
    UnregisterFields(r, market, marketType);
    KindsCarryOver(r, s);
    UnregisterLists(r, market, marketType);
  }

  lemma UnregisterFields(r: RegistryState, market: Address, marketType: nat)
    requires r.bigBangs <= r.isMarket && UnregisterContract(r, market, marketType).Some?
    ensures var s := UnregisterContract(r, market, marketType).value;
            && s.isMarket == r.isMarket - {market} && s.bigBangs == r.bigBangs * s.isMarket
            && s.isBigBangMaster == r.isBigBangMaster && s.isSingularityMaster == r.isSingularityMaster
            && (forall m | m in s.isMarket :: Master(s, m) == Master(r, m))
  {
  }

  lemma UnregisterLists(r: RegistryState, market: Address, marketType: nat)
    requires ListsMatch(r) && UnregisterContract(r, market, marketType).Some?
    ensures ListsMatch(UnregisterContract(r, market, marketType).value) <==> Safe(r, Unregister(market, marketType))
  {
    var s := UnregisterContract(r, market, marketType).value;
    if marketType == 1 {
      SwapPopLists(r.allBigBang, market);
    } else {
      assert s.allBigBang == r.allBigBang && s.bigBangs == r.bigBangs - {market};
    }
  }

  lemma DeployMarketKeepsMatch(r: RegistryState, master: Address, d: Deployment)
    requires ClonesMatch(r) && DeployMarket(r, master, d).Some?
    ensures ClonesMatch(DeployMarket(r, master, d).value) <==> d.clone !in r.isMarket
  {
    var s := DeployMarket(r, master, d).value;
    if d.clone in r.isMarket {
      PushBreaksMatch(r, s, master, d.clone);
    } else {
      PushKeepsMatch(r, master, d.clone);
      assert s == Push(r.(isMarket := r.isMarket + {d.clone}), master, d.clone);
    }
  }

  lemma AppendLists(s: seq<Address>, t: set<Address>, a: Address)
    requires ListsExactly(s, t) && a !in t
    ensures ListsExactly(s + [a], t + {a})
  {
  }

  /** Whether the match of the lists survives depends on the two lists alone. */
  lemma MatchDependsOn(r: RegistryState, s: RegistryState)
    requires r.isMarket == s.isMarket && r.masterOf == s.masterOf && r.clonesOf == s.clonesOf
    ensures ClonesMatch(r) <==> ClonesMatch(s)
  {
    if ClonesMatch(r) {
      forall mc ensures Clones(s, mc) == Clones(r, mc) {}
      forall m ensures Master(s, m) == Master(r, m) {}
    }
    if ClonesMatch(s) {
      forall mc ensures Clones(s, mc) == Clones(r, mc) {}
      forall m ensures Master(s, m) == Master(r, m) {}
    }
  }

  lemma RegisteringKeepsInv(r: RegistryState, op: Op)
    requires Inv(r) && Apply(r, op).Some?
    requires op.RegisterSingularity? || op.RegisterBigBang?
    ensures Inv(Apply(r, op).value) <==> Safe(r, op)
  {
    var d := op.deployment;
    var s := Apply(r, op).value;
    DeployMarketKeepsMatch(r, op.master, d);
    MatchDependsOn(DeployMarket(r, op.master, d).value, s);
    if d.clone !in r.isMarket {
      NewMarketKinds(r, s, op.master, d.clone);
    }
  }

  /** One new market, of the kind its master is registered for. */
  lemma NewMarketKinds(r: RegistryState, s: RegistryState, master: Address, market: Address)
    requires Inv(r) && market !in r.isMarket
    requires s.isMarket == r.isMarket + {market} && s.masterOf == r.masterOf[market := master]
    requires s.singularityMasters == r.singularityMasters && s.isSingularityMaster == r.isSingularityMaster
    requires s.bigBangMasters == r.bigBangMasters && s.isBigBangMaster == r.isBigBangMaster
    requires || (master in r.isSingularityMaster && s.allBigBang == r.allBigBang && s.bigBangs == r.bigBangs - {market})
             || (master in r.isSingularityMaster && s.allBigBang == r.allBigBang && s.bigBangs == r.bigBangs)
             || (master in r.isBigBangMaster
                 && s.allBigBang == r.allBigBang + [market] && s.bigBangs == r.bigBangs + {market})
    ensures ListsMatch(s) && KindsMatch(s)
  {
    assert r.bigBangs - {market} == r.bigBangs;
    AppendLists(r.allBigBang, r.bigBangs, market);
    forall m | m in r.isMarket ensures Master(s, m) == Master(r, m) {}
    assert Master(s, market) == master;
  }

  lemma AddingKeepsInv(r: RegistryState, op: Op)
    requires Inv(r) && Apply(r, op).Some?
    requires op.AddSingularity? || op.AddBigBang?
    ensures Inv(Apply(r, op).value)
  {
    var s := Apply(r, op).value;
    PushKeepsMatch(r, op.master, op.market);
    MatchDependsOn(Push(r.(isMarket := r.isMarket + {op.market}), op.master, op.market), s);
    NewMarketKinds(r, s, op.master, op.market);
  }

  /** Every call that succeeds keeps the registry consistent exactly when it is safe. */
  lemma StepKeepsInvExactly(r: RegistryState, op: Op)
    requires Inv(r) && Apply(r, op).Some?
    ensures Inv(Apply(r, op).value) <==> Safe(r, op)
  {
    var s := Apply(r, op).value;
    match op
    case RegisterSingularityMaster(mc) =>
      MatchDependsOn(r, s);
      AppendLists(r.singularityMasters, r.isSingularityMaster, mc);
    case RegisterBigBangMaster(mc) =>
      MatchDependsOn(r, s);
      AppendLists(r.bigBangMasters, r.isBigBangMaster, mc);
    case Deploy(mc, d) => PushBreaksMatch(r, s, mc, d.clone);
    case RegisterSingularity(_, _) => RegisteringKeepsInv(r, op);
    case RegisterBigBang(_, _) => RegisteringKeepsInv(r, op);
    case AddSingularity(_, _) => AddingKeepsInv(r, op);
    case AddBigBang(_, _) => AddingKeepsInv(r, op);
    case AddOrigins(_) => MatchDependsOn(r, s);
    case Unregister(market, marketType) => UnregisterKeepsInv(r, market, marketType);
  }

  function Step(r: RegistryState, op: Op): RegistryState {
    Apply(r, op).GetOr(r)
  }

  function Run(r: RegistryState, ops: seq<Op>): RegistryState
    decreases ops
  {
    if ops == [] then r else Run(Step(r, ops[0]), ops[1..])
  }

  predicate AllSafe(r: RegistryState, ops: seq<Op>)
    decreases ops
  {
    ops == [] || (Safe(r, ops[0]) && AllSafe(Step(r, ops[0]), ops[1..]))
  }

  lemma {:induction false} RunKeepsInv(r: RegistryState, ops: seq<Op>)
    requires Inv(r) && AllSafe(r, ops)
    ensures Inv(Run(r, ops))
    decreases ops
  {
    if ops != [] {
      if Apply(r, ops[0]).Some? {
        StepKeepsInvExactly(r, ops[0]);
      }
      RunKeepsInv(Step(r, ops[0]), ops[1..]);
    }
  }

  /** Origins markets are listed at most once, and only while flagged. */
  predicate OriginsMatch(r: RegistryState) {
    NoDup(r.allOrigins) && forall m | m in r.allOrigins :: m in r.isOrigin
  }

  /**
   * That holds after every run, safe or not, and the flag is never taken back: an Origins market that
   * was unregistered cannot be added again.
   */
  lemma {:induction false} OriginsNeverReturn(r: RegistryState, ops: seq<Op>, market: Address)
    requires OriginsMatch(r)
    ensures OriginsMatch(Run(r, ops))
    ensures r.isOrigin <= Run(r, ops).isOrigin
    ensures market in r.isOrigin ==> Apply(Run(r, ops), AddOrigins(market)) == None
    decreases ops
  {
    if ops != [] {
      if Apply(r, ops[0]).Some? {
        StepKeepsOrigins(r, ops[0]);
      }
      OriginsNeverReturn(Step(r, ops[0]), ops[1..], market);
    }
  }

  lemma StepKeepsOrigins(r: RegistryState, op: Op)
    requires OriginsMatch(r) && Apply(r, op).Some?
    ensures OriginsMatch(Apply(r, op).value) && r.isOrigin <= Apply(r, op).value.isOrigin
  {
    if op.Unregister? && op.marketType == 2 {
      SwapPopLists(r.allOrigins, op.market);
    }
  }

  /** Every safe run from deployment leaves each market listed once, under its own master, and nothing else listed. */
  lemma EveryMarketListedOnce(ops: seq<Op>)
    requires AllSafe(EMPTY, ops)
    ensures Inv(Run(EMPTY, ops))
    ensures var r := Run(EMPTY, ops);
            forall m | m in r.isMarket ::
              exists i | 0 <= i < |Clones(r, Master(r, m))| ::
                && Clones(r, Master(r, m))[i] == m
                && forall mc, j | 0 <= j < |Clones(r, mc)| && Clones(r, mc)[j] == m :: mc == Master(r, m) && j == i
  {
    RunKeepsInv(EMPTY, ops);
    var r := Run(EMPTY, ops);
    forall m | m in r.isMarket
      ensures exists i | 0 <= i < |Clones(r, Master(r, m))| ::
                && Clones(r, Master(r, m))[i] == m
                && forall mc, j | 0 <= j < |Clones(r, mc)| && Clones(r, mc)[j] == m :: mc == Master(r, m) && j == i
    {
      var home := Clones(r, Master(r, m));
      var i :| 0 <= i < |home| && home[i] == m;
      forall mc, j | 0 <= j < |Clones(r, mc)| && Clones(r, mc)[j] == m
        ensures mc == Master(r, m) && j == i
      {
        assert m in Clones(r, mc);
      }
    }
  }
}
