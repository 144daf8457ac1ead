/** The registry contract itself (contracts/Penrose.sol), with its loops over arrays. */
module Penrose {
  import opened Wrappers
  import opened Arithmetic
  import opened Primitives
  import opened Registry
  import opened RegistryViews
  import Usdo

  /**
   * The open interest the BigBang markets hold. Consuming a market's debt returns and clears it; a
   * market whose owner is another account refuses.
   */
  class DebtBook {
    var debts: map<Address, nat>
    const refusing: set<Address>

    constructor (refusing: set<Address>)
      ensures debts == map[] && this.refusing == refusing
    {
      this.debts, this.refusing := map[], refusing;
    }

    method Consume(market: Address) returns (ok: bool, amount: nat)
      modifies this
      ensures ok == (market !in refusing)
      ensures ok ==> amount == Lookup(old(debts), market) && debts == old(debts)[market := 0]
      ensures !ok ==> debts == old(debts)
    {
      ok, amount := market !in refusing, 0;
      if ok {
        amount := Lookup(debts, market);
        debts := debts[market := 0];
      }
    }

    method Restore(before: map<Address, nat>)
      modifies this
      ensures debts == before
    {
      debts := before;
    }
  }

  // ---------- Minting and distributing ----------

  /** safeApprove: to zero first, then to a value other than zero. */
  function SafeApprove(u: Usdo.UsdoState, owner: Address, spender: Address, value: nat): Option<Usdo.UsdoState> {
    var u :- Usdo.SetAllowance(u, owner, spender, 0);
    if value > 0 then Usdo.SetAllowance(u, owner, spender, value) else Some(u)
  }

  /** _distributeOnTwTap; twTap either reverts or pulls the whole reward with the allowance it was given. */
  function Distribute(u: Usdo.UsdoState, penrose: Address, twTap: Address, amount: nat, accepted: bool)
    : Option<Usdo.UsdoState>
  {
    var u :- SafeApprove(u, penrose, twTap, amount);
    var _ :- Require(accepted);
    var u :- Usdo.TransferFrom(u, twTap, penrose, twTap, amount);
    SafeApprove(u, penrose, twTap, 0)
  }

  /** What mintOpenInterestDebt does to the token once the sum is known. */
  function MintAndDistribute(u: Usdo.UsdoState, penrose: Address, twTap: Address, sum: nat, accepted: bool)
    : Option<Usdo.UsdoState>
  {
    if sum == 0 then Some(u) else
      var u :- Usdo.Mint(u, penrose, penrose, sum);
      Distribute(u, penrose, twTap, sum, accepted)
  }

  /** Only balances, the supply and Penrose's allowance for twTap, which is none, may differ. */
  ghost predicate OnlyRewarded(u: Usdo.UsdoState, v: Usdo.UsdoState, penrose: Address, twTap: Address, minted: nat) {
    && v == u.(totalSupply := u.totalSupply + minted, balances := v.balances, allowances := v.allowances)
    && forall o: Address, s: Address ::
         Lookup(v.allowances, (o, s)) == if (o, s) == (penrose, twTap) then 0 else Lookup(u.allowances, (o, s))
  }

  /** Of a reward Penrose holds, twTap gets all or the call reverts; no allowance stays behind. */
  lemma DistributeExactly(u: Usdo.UsdoState, penrose: Address, twTap: Address, amount: nat, accepted: bool)
    requires penrose != ZERO_ADDRESS && 0 < amount <= Usdo.Balance(u, penrose)
    ensures var after := Distribute(u, penrose, twTap, amount, accepted);
            && (after.Some? <==> accepted && twTap != ZERO_ADDRESS)
            && (after.Some? ==>
                && OnlyRewarded(u, after.value, penrose, twTap, 0)
                && forall a: Address ::
                     Usdo.Balance(after.value, a)
                     == Usdo.Balance(u, a) + (if a == twTap then amount else 0) - (if a == penrose then amount else 0))
  {
  }

  /**
   * Under the registry invariant: when the token runs, lets Penrose mint and has room, and twTap
   * accepts, and only then, the supply and twTap's balance grow by exactly the total debt shown before,
   * every other balance stays, and no allowance is left over.
   */
  lemma MintGrowsSupplyExactly(r: RegistryState, debts: map<Address, nat>, u: Usdo.UsdoState, penrose: Address,
                               twTap: Address, accepted: bool)
    requires Inv(r) && penrose != ZERO_ADDRESS
    ensures var total := TotalOver(r.allBigBang, r.isMarket, debts);
            var after := MintAndDistribute(u, penrose, twTap, ConsumeOver(r.allBigBang, r.isMarket, debts).0, accepted);
            && (after.Some? <==> total == 0
                                 || (accepted && twTap != ZERO_ADDRESS && !u.paused && penrose in u.minters
                                     && u.totalSupply + total <= MAX_UINT256))
            && (after.Some? && total == 0 ==> after.value == u)
            && (after.Some? && total > 0 ==>
                && OnlyRewarded(u, after.value, penrose, twTap, total)
                && forall a: Address ::
                     Usdo.Balance(after.value, a) == Usdo.Balance(u, a) + (if a == twTap then total else 0))
  {
    MintTakesTotalDebt(r, debts);
    MintExactly(u, penrose, twTap, TotalOver(r.allBigBang, r.isMarket, debts), accepted);
  }

  lemma MintExactly(u: Usdo.UsdoState, penrose: Address, twTap: Address, total: nat, accepted: bool)
    requires penrose != ZERO_ADDRESS
    ensures var after := MintAndDistribute(u, penrose, twTap, total, accepted);
            && (after.Some? <==> total == 0
                                 || (accepted && twTap != ZERO_ADDRESS && !u.paused && penrose in u.minters
                                     && u.totalSupply + total <= MAX_UINT256))
            && (after.Some? && total == 0 ==> after.value == u)
            && (after.Some? && total > 0 ==>
                && OnlyRewarded(u, after.value, penrose, twTap, total)
                && forall a: Address ::
                     Usdo.Balance(after.value, a) == Usdo.Balance(u, a) + (if a == twTap then total else 0))
  {
    var minted := Usdo.Mint(u, penrose, penrose, total);
    if total > 0 && minted.Some? {
      DistributeExactly(minted.value, penrose, twTap, total, accepted);
    }
  }

  /** Methods return false for a revert, which leaves the storage as it was. */
  class PenroseContract {
    var singularityMasters: seq<Address>
    var bigBangMasters: seq<Address>
    var isSingularityMaster: set<Address>
    var isBigBangMaster: set<Address>
    var isMarket: set<Address>
    var allBigBang: seq<Address>
    var isOrigin: set<Address>
    var allOrigins: seq<Address>
    var masterOf: map<Address, Address>
    var clonesOf: map<Address, seq<Address>>
    ghost var bigBangs: set<Address>

    ghost function State(): RegistryState
      reads this
    {
      RegistryState(singularityMasters, bigBangMasters, isSingularityMaster, isBigBangMaster, isMarket,
                    allBigBang, isOrigin, allOrigins, masterOf, clonesOf, bigBangs)
    }

    constructor ()
      ensures State() == EMPTY
    {
      singularityMasters, bigBangMasters, isSingularityMaster, isBigBangMaster := [], [], {}, {};
      isMarket, allBigBang, isOrigin, allOrigins := {}, [], {}, [];
      masterOf, clonesOf, bigBangs := map[], map[], {};
    }

    function ClonesOf(master: Address): seq<Address>
      reads this
    {
      if master in clonesOf then clonesOf[master] else []
    }

    // ---------- Master contracts ----------

    method RegisterSingularityMasterContract(mc: Address) returns (ok: bool)
      modifies this
      ensures ok == Apply(old(State()), RegisterSingularityMaster(mc)).Some?
      ensures State() == Step(old(State()), RegisterSingularityMaster(mc))
    {
      ok := mc !in isSingularityMaster;
      if ok {
        singularityMasters := singularityMasters + [mc];
        isSingularityMaster := isSingularityMaster + {mc};
      }
    }

    method RegisterBigBangMasterContract(mc: Address) returns (ok: bool)
      modifies this
      ensures ok == Apply(old(State()), RegisterBigBangMaster(mc)).Some?
      ensures State() == Step(old(State()), RegisterBigBangMaster(mc))
    {
      ok := mc !in isBigBangMaster;
      if ok {
        bigBangMasters := bigBangMasters + [mc];
        isBigBangMaster := isBigBangMaster + {mc};
      }
    }

    // ---------- Markets ----------

    method PushClone(master: Address, clone: Address)
      modifies this
      ensures State() == Push(old(State()), master, clone)
    {
      clonesOf := clonesOf[master := ClonesOf(master) + [clone]];
      masterOf := masterOf[clone := master];
    }

    method DeployBare(mc: Address, d: Deployment) returns (ok: bool)
      modifies this
      ensures ok == DeployClone(old(State()), mc, d).Some?
      ensures State() == DeployClone(old(State()), mc, d).GetOr(old(State()))
    {
      ok := mc != ZERO_ADDRESS && d.initReturns;
      if ok {
        PushClone(mc, d.clone);
      }
    }

    method DeployAsMarket(mc: Address, d: Deployment) returns (ok: bool)
      modifies this
      ensures ok == DeployMarket(old(State()), mc, d).Some?
      ensures State() == DeployMarket(old(State()), mc, d).GetOr(old(State()))
    {
      if d.clone == ZERO_ADDRESS || !d.hasCode { return false; }
      ok := DeployBare(mc, d);
      if ok {
        isMarket := isMarket + {d.clone};
      }
    }

    method RegisterSingularityMarket(mc: Address, d: Deployment) returns (ok: bool)
      modifies this
      ensures ok == Apply(old(State()), RegisterSingularity(mc, d)).Some?
      ensures State() == Step(old(State()), RegisterSingularity(mc, d))
    {
      if mc !in isSingularityMaster { return false; }
      ok := DeployAsMarket(mc, d);
      if ok {
        bigBangs := bigBangs - {d.clone};
      }
    }

    method AddSingularityMarket(mc: Address, market: Address) returns (ok: bool)
      modifies this
      ensures ok == Apply(old(State()), AddSingularity(mc, market)).Some?
      ensures State() == Step(old(State()), AddSingularity(mc, market))
    {
      if mc !in isSingularityMaster { return false; }
      if market in isMarket { return false; }
      isMarket := isMarket + {market};
      PushClone(mc, market);
      return true;
    }

    method RegisterBigBangMarket(mc: Address, d: Deployment) returns (ok: bool)
      modifies this
      ensures ok == Apply(old(State()), RegisterBigBang(mc, d)).Some?
      ensures State() == Step(old(State()), RegisterBigBang(mc, d))
    {
      if mc !in isBigBangMaster { return false; }
      ok := DeployAsMarket(mc, d);
      if ok {
        allBigBang := allBigBang + [d.clone];
        bigBangs := bigBangs + {d.clone};
      }
    }

    method AddBigBangMarket(mc: Address, market: Address) returns (ok: bool)
      modifies this
      ensures ok == Apply(old(State()), AddBigBang(mc, market)).Some?
      ensures State() == Step(old(State()), AddBigBang(mc, market))
    {
      if mc !in isBigBangMaster { return false; }
      if market in isMarket { return false; }
      isMarket := isMarket + {market};
      PushClone(mc, market);
      allBigBang := allBigBang + [market];
      bigBangs := bigBangs + {market};
      return true;
    }

    method AddOriginsMarket(market: Address) returns (ok: bool)
      modifies this
      ensures ok == Apply(old(State()), AddOrigins(market)).Some?
      ensures State() == Step(old(State()), AddOrigins(market))
    {
      ok := market !in isOrigin;
      if ok {
        isOrigin := isOrigin + {market};
        allOrigins := allOrigins + [market];
      }
    }

    /** The linear search; false is the revert of a search that finds nothing. */
    static method FindIndex(list: seq<Address>, a: Address) returns (found: bool, index: nat)
      ensures found == IndexOf(list, a).Some?
      ensures found ==> index == IndexOf(list, a).value
    {
      index := 0;
      while index < |list|
        invariant index <= |list|
        invariant a !in list[..index]
      {
        if list[index] == a {
          FirstIndexIsUnique(list, a, index);
          return true, index;
        }
        index := index + 1;
      }
      assert list[..|list|] == list;
      found := false;
    }

    static lemma {:induction false} FirstIndexIsUnique(list: seq<Address>, a: Address, i: nat)
      requires i < |list| && list[i] == a && a !in list[..i]
      ensures IndexOf(list, a) == Some(i)
    {
      if i > 0 {
        assert list[..i] == [list[0]] + list[1..][..i - 1];
        FirstIndexIsUnique(list[1..], a, i - 1);
      }
    }

    method RemoveFrom(list: seq<Address>, a: Address) returns (found: bool, rest: seq<Address>)
      ensures found == Remove(list, a).Some?
      ensures found ==> rest == Remove(list, a).value
    {
      var index;
      found, index := FindIndex(list, a);
      rest := list;
      if found {
        rest := rest[index := rest[|rest| - 1]];
        rest := rest[..|rest| - 1];
      }
    }

    method RemoveFromList(market: Address, marketType: nat) returns (ok: bool)
      modifies this
      ensures ok == Unlist(old(State()), market, marketType).Some?
      ensures State() == Unlist(old(State()), market, marketType).GetOr(old(State()))
    {
      ok := true;
      var rest;
      if marketType == 1 {
        ok, rest := RemoveFrom(allBigBang, market);
        if ok {
          allBigBang := rest;
        }
      } else if marketType == 2 {
        ok, rest := RemoveFrom(allOrigins, market);
        if ok {
          allOrigins := rest;
        }
      }
    }

    method RemoveFromClones(master: Address, market: Address) returns (ok: bool)
      modifies this
      ensures ok == RemoveClone(old(State()), master, market).Some?
      ensures State() == RemoveClone(old(State()), master, market).GetOr(old(State()))
    {
      var clones;
      ok, clones := RemoveFrom(ClonesOf(master), market);
      if ok {
        clonesOf := clonesOf[master := clones];
      }
    }

    /** Undoes an unregistering call that failed before it reached the clone list. */
    method Undo(markets: set<Address>, masters: map<Address, Address>, bigBangList: seq<Address>,
                originsList: seq<Address>, ghost history: set<Address>)
      modifies this
      ensures State() == old(State()).(isMarket := markets, masterOf := masters, allBigBang := bigBangList,
                                       allOrigins := originsList, bigBangs := history)
    {
      isMarket, masterOf, allBigBang, allOrigins := markets, masters, bigBangList, originsList;
      bigBangs := history;
    }

    method ForgetMarket(market: Address)
      modifies this
      ensures State() == Forget(old(State()), market)
    {
      isMarket := isMarket - {market};
      masterOf := masterOf - {market};
      bigBangs := bigBangs - {market};
    }

    method UnregisterMarket(market: Address, marketType: nat) returns (ok: bool)
      modifies this
      ensures ok == Apply(old(State()), Unregister(market, marketType)).Some?
      ensures State() == Step(old(State()), Unregister(market, marketType))
    {
      var markets, masters, bigBangList, originsList := isMarket, masterOf, allBigBang, allOrigins;
      ghost var history := bigBangs;
      var master := Lookup(masterOf, market);
      ForgetMarket(market);
      ok := RemoveFromList(market, marketType);
      if ok {
        ok := RemoveFromClones(master, market);
      }
      if !ok {
        Undo(markets, masters, bigBangList, originsList, history);
      }
    }

    // ---------- Views ----------

    /** The first pass: how many clones there are in all. */
    method CountClones(masters: seq<Address>) returns (length: nat)
      ensures length == |Flatten(State(), masters)|
    {
      length := 0;
      for i := 0 to |masters|
        invariant length == |Flatten(State(), masters[..i])|
      {
        FlattenStep(State(), masters, i);
        length := length + |ClonesOf(masters[i])|;
      }
      assert masters[..|masters|] == masters;
    }

    /** The inner loop of the second pass: one clone list, written from index on. */
    static method CopyClones(markets: array<Address>, start: nat, clones: seq<Address>) returns (index: nat)
      requires start + |clones| <= markets.Length
      modifies markets
      ensures index == start + |clones|
      ensures markets[..index] == old(markets[..start]) + clones
    {
      index := start;
      for j := 0 to |clones|
        invariant index == start + j
        invariant markets[..index] == old(markets[..start]) + clones[..j]
      {
        markets[index] := clones[j];
        index := index + 1;
        assert clones[..j + 1] == clones[..j] + [clones[j]];
      }
      assert clones[..|clones|] == clones;
    }

    /** Two passes: the first sizes the array, the second fills it. */
    method GetAllMasterContractClones(masters: seq<Address>) returns (markets: array<Address>)
      ensures fresh(markets)
      ensures markets[..] == Flatten(State(), masters)
    {
      var length := CountClones(masters);
      markets := new Address[length];
      var index := 0;
      for i := 0 to |masters|
        invariant index == |Flatten(State(), masters[..i])| <= markets.Length
        invariant markets[..index] == Flatten(State(), masters[..i])
        invariant State() == old(State())
      {
        FlattenStep(State(), masters, i);
        index := CopyClones(markets, index, ClonesOf(masters[i]));
      }
      assert masters[..|masters|] == masters;
      assert markets[..] == markets[..index];
    }

    method SingularityMarketList() returns (markets: array<Address>)
      ensures fresh(markets) && markets[..] == SingularityMarkets(State())
    {
      markets := GetAllMasterContractClones(singularityMasters);
    }

    method BigBangMarketList() returns (markets: array<Address>)
      ensures fresh(markets) && markets[..] == BigBangMarkets(State())
    {
      markets := GetAllMasterContractClones(bigBangMasters);
    }

    method ViewTotalDebt(book: DebtBook) returns (total: nat)
      ensures total == TotalOver(allBigBang, isMarket, book.debts)
    {
      total := 0;
      for i := 0 to |allBigBang|
        invariant total == TotalOver(allBigBang[..i], isMarket, book.debts)
      {
        var market := allBigBang[i];
        if market in isMarket {
          total := total + Lookup(book.debts, market);
        }
        assert allBigBang[..i + 1][..i] == allBigBang[..i];
      }
      assert allBigBang[..|allBigBang|] == allBigBang;
    }

    /** The loop; false when a market refuses, with everything consumed so far put back. */
    method ConsumeAll(book: DebtBook) returns (ok: bool, sum: nat)
      modifies book
      ensures ok <==> forall a | a in allBigBang && a in isMarket :: a !in book.refusing
      ensures ok ==> (sum, book.debts) == ConsumeOver(allBigBang, isMarket, old(book.debts))
      ensures !ok ==> book.debts == old(book.debts)
    {
      var before := book.debts;
      sum := 0;
      for i := 0 to |allBigBang|
        invariant (sum, book.debts) == ConsumeOver(allBigBang[..i], isMarket, before)
        invariant forall a | a in allBigBang[..i] && a in isMarket :: a !in book.refusing
      {
        assert allBigBang[..i + 1][..i] == allBigBang[..i];
        var market := allBigBang[i];
        if market in isMarket {
          var amount;
          ok, amount := book.Consume(market);
          if !ok {
            book.Restore(before);
            return;
          }
          sum := sum + amount;
        }
      }
      assert allBigBang[..|allBigBang|] == allBigBang;
      ok := true;
    }

    /**
     * self and twTap are the two addresses, and accepted says whether twTap takes the reward. When any
     * step reverts, no market's debt is consumed and the token is as it was.
     */
    method MintOpenInterestDebt(book: DebtBook, token: Usdo.UsdoToken, self: Address, twTap: Address, accepted: bool)
      returns (ok: bool)
      modifies book, token
      ensures var (sum, rest) := ConsumeOver(allBigBang, isMarket, old(book.debts));
              var after := MintAndDistribute(old(token.State()), self, twTap, sum, accepted);
              && ok == ((forall a | a in allBigBang && a in isMarket :: a !in book.refusing) && after.Some?)
              && (ok ==> book.debts == rest && token.State() == after.value)
              && (!ok ==> book.debts == old(book.debts) && token.State() == old(token.State()))
    {
      var debts, before := book.debts, token.State();
      var sum;
      ok, sum := ConsumeAll(book);
      if !ok { return; }
      if sum > 0 {
        ok := token.MintCall(self, self, sum);
        if ok {
          ok := DistributeOnTwTap(token, self, twTap, sum, accepted);
        }
        if !ok {
          token.Restore(before);
          book.Restore(debts);
        }
      }
    }

    static method DistributeOnTwTap(token: Usdo.UsdoToken, self: Address, twTap: Address, amount: nat, accepted: bool)
      returns (ok: bool)
      modifies token
      ensures var r := Distribute(old(token.State()), self, twTap, amount, accepted);
              ok == r.Some? && (ok ==> token.State() == r.value)
    {
      ok := ApproveSafely(token, self, twTap, amount);
      if !ok || !accepted { return false; }
      ok := token.TransferFromCall(twTap, self, twTap, amount);
      if ok {
        ok := ApproveSafely(token, self, twTap, 0);
      }
    }

    static method ApproveSafely(token: Usdo.UsdoToken, self: Address, spender: Address, value: nat) returns (ok: bool)
      modifies token
      ensures var r := SafeApprove(old(token.State()), self, spender, value);
              ok == r.Some? && (ok ==> token.State() == r.value)
    {
      ok := token.ApproveCall(self, spender, 0);
      if ok && value > 0 {
        ok := token.ApproveCall(self, spender, value);
      }
    }
  }
}
