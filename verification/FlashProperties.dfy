/** What every tree of actions keeps, and what a completed flash loan changes. */
module FlashProperties {
  import opened Wrappers
  import opened Arithmetic
  import opened Primitives
  import opened Sums
  import opened Usdo
  import opened FlashLender

  // ---------- Accounting over every tree ----------

  /** Supply and fees move exactly as the effects say, and no loan is left behind or taken away. */
  predicate Accounts(w: World, r: (World, Effects)) {
    && r.0.usdo.totalSupply + r.1.burned == w.usdo.totalSupply + r.1.minted
    && r.0.usdo.fees + r.1.extracted == w.usdo.fees + r.1.registered
    && r.0.loans == w.loans
    && r.0.lender.entered == w.lender.entered
  }

  lemma ApplyAccounts(env: Env, w: World, sender: Address, c: Call)
    requires Apply(env, w, sender, c).Some?
    ensures Accounts(w, Apply(env, w, sender, c).value)
  {
  }

  /** An allowance that covers an amount, before and after; an infinite one is not used up. */
  predicate Spends(before: nat, after: nat, amount: nat) {
    if before == MAX_UINT256 then after == before else before >= amount && after == before - amount
  }

  /** What flashLoan has done when it hands over to the callback. */
  lemma BeginFacts(env: Env, w: World, borrower: Address, receiver: Address, token: Address, amount: nat)
    requires BeginLoan(env, w, borrower, receiver, token, amount).Some?
    ensures var begun := BeginLoan(env, w, borrower, receiver, token, amount).value;
            var fee := MulDiv(amount, w.lender.flashMintFee, FLASH_MINT_FEE_PRECISION);
            && token == env.usdo && !w.lender.entered
            && begun.lender == w.lender.(entered := true, allowances := begun.lender.allowances)
            && (forall o: Address, s: Address | receiver == borrower || (o, s) != (receiver, borrower) ::
                  Lookup(begun.lender.allowances, (o, s)) == Lookup(w.lender.allowances, (o, s)))
            && !w.usdo.paused && env.lender in w.usdo.minters && w.usdo.flashLoanHelper == env.lender
            && (receiver != borrower ==>
                Spends(Lookup(w.lender.allowances, (receiver, borrower)),
                       Lookup(begun.lender.allowances, (receiver, borrower)), amount))
            && amount <= Min(w.usdo.totalSupply, w.lender.maxFlashMint)
            && begun.loans == w.loans + [Loan(receiver, amount, fee, w.usdo.totalSupply, w.lender.maxFlashMint)]
            && receiver != ZERO_ADDRESS && w.usdo.totalSupply + amount <= MAX_UINT256
            && begun.usdo == w.usdo.(totalSupply := w.usdo.totalSupply + amount,
                                     fees := w.usdo.fees + fee,
                                     balances := w.usdo.balances[receiver := Balance(w.usdo, receiver) + amount])
  {
  }

  /** What has to hold for a loan to be granted. */
  predicate MayBegin(env: Env, w: World, borrower: Address, receiver: Address, token: Address, amount: nat) {
    var fee, allowance := MulDiv(amount, w.lender.flashMintFee, FLASH_MINT_FEE_PRECISION),
                          Lookup(w.lender.allowances, (receiver, borrower));
    && token == env.usdo && receiver != ZERO_ADDRESS && !w.usdo.paused && !w.lender.entered
    && (receiver == borrower
        || allowance == MAX_UINT256 >= amount || (allowance >= amount && borrower != ZERO_ADDRESS))
    && amount <= Min(w.usdo.totalSupply, w.lender.maxFlashMint)
    && amount * w.lender.flashMintFee <= MAX_UINT256
    && w.usdo.totalSupply + amount <= MAX_UINT256
    && w.usdo.fees + fee <= MAX_UINT256
    && env.lender in w.usdo.minters && w.usdo.flashLoanHelper == env.lender
  }

  /** A loan begins exactly then: in particular up to the smaller of the supply and the cap, and no further. */
  lemma BeginLoanExactly(env: Env, w: World, borrower: Address, receiver: Address, token: Address, amount: nat)
    ensures BeginLoan(env, w, borrower, receiver, token, amount).Some?
            <==> MayBegin(env, w, borrower, receiver, token, amount)
  {
  }

  /** For every tree whatever its senders, callbacks and reverts. */
  lemma {:induction false} ExecAccounts(env: Env, w: World, a: Action)
    requires Exec(env, w, a).Some?
    ensures Accounts(w, Exec(env, w, a).value)
    decreases a, 0
  {
    match a
    case Do(sender, c) => ApplyAccounts(env, w, sender, c);
    case Frame(body, _) => ExecAllAccounts(env, w, body);
    case FlashLoan(borrower, receiver, token, amount, callback, outcome) =>
      BeginFacts(env, w, borrower, receiver, token, amount);
      var begun := BeginLoan(env, w, borrower, receiver, token, amount).value;
      ExecAllAccounts(env, begun, callback);
      LoanAccounts(env, w, begun, ExecAll(env, begun, callback), receiver, amount);
  }

  lemma {:induction false} ExecAllAccounts(env: Env, w: World, actions: seq<Action>)
    ensures Accounts(w, ExecAll(env, w, actions))
    decreases actions, 1
  {
    if actions != [] {
      if Exec(env, w, actions[0]).Some? {
        ExecAccounts(env, w, actions[0]);
      }
      ExecAllAccounts(env, Exec(env, w, actions[0]).GetOr((w, NOTHING)).0, actions[1..]);
    }
  }

  /** A loan whose callback accounts for itself accounts for itself. */
  lemma LoanAccounts(env: Env, w: World, begun: World, left: (World, Effects), receiver: Address, amount: nat)
    requires begun.loans != [] && begun.loans[..|begun.loans| - 1] == w.loans
    requires !w.lender.entered && begun.lender.entered
    requires begun.usdo.totalSupply == w.usdo.totalSupply + amount
    requires begun.usdo.fees == w.usdo.fees + begun.loans[|begun.loans| - 1].fee
    requires Accounts(begun, left)
    requires EndLoan(env, left.0, receiver, amount, begun.loans[|begun.loans| - 1].fee).Some?
    ensures var fee := begun.loans[|begun.loans| - 1].fee;
            Accounts(w, (EndLoan(env, left.0, receiver, amount, fee).value,
                         NOTHING.(registered := fee).Plus(left.1)))
  {
    EndAccounts(env, left.0, receiver, amount, begun.loans[|begun.loans| - 1].fee);
  }

  lemma EndAccounts(env: Env, w: World, receiver: Address, amount: nat, fee: nat)
    requires EndLoan(env, w, receiver, amount, fee).Some?
    ensures var r := EndLoan(env, w, receiver, amount, fee).value;
            && r.usdo == w.usdo.(totalSupply := w.usdo.totalSupply - amount, balances := r.usdo.balances,
                                 allowances := r.usdo.allowances)
            && (forall o: Address, s: Address | (o, s) != (receiver, env.lender) ::
                  Lookup(r.usdo.allowances, (o, s)) == Lookup(w.usdo.allowances, (o, s)))
            && r.lender == w.lender.(entered := false)
            && r.loans == (if w.loans == [] then [] else w.loans[..|w.loans| - 1])
  {
  }

  // ---------- Order, and what outside code sees ----------

  /** What one action of a list leaves: nothing changes if it reverts. */
  function After(env: Env, w: World, a: Action): (World, Effects) {
    Exec(env, w, a).GetOr((w, NOTHING))
  }

  /** Actions run one after the other; one that reverts leaves the world and the effects as they were. */
  lemma {:induction false} RunsInOrder(env: Env, w: World, actions: seq<Action>, last: Action)
    ensures var before := ExecAll(env, w, actions);
            var step := After(env, before.0, last);
            ExecAll(env, w, actions + [last]) == (step.0, before.1.Plus(step.1))
    decreases actions
  {
    var first := After(env, w, (actions + [last])[0]);
    RunFirst(env, w, actions + [last], first);
    if actions == [] {
      assert [] + [last] == [last] && [last][1..] == [];
      RunNone(env, w);
      RunNone(env, first.0);
      PlusLaws(first.1, NOTHING, NOTHING);
    } else {
      assert (actions + [last])[1..] == actions[1..] + [last];
      RunFirst(env, w, actions, first);
      RunsInOrder(env, first.0, actions[1..], last);
      var rest := ExecAll(env, first.0, actions[1..]);
      PlusLaws(first.1, rest.1, After(env, rest.0, last).1);
    }
  }

  lemma PlusLaws(a: Effects, b: Effects, c: Effects)
    ensures a.Plus(NOTHING) == a == NOTHING.Plus(a)
    ensures a.Plus(b).Plus(c) == a.Plus(b.Plus(c))
  {
  }

  lemma RunFirst(env: Env, w: World, actions: seq<Action>, first: (World, Effects))
    requires actions != [] && first == After(env, w, actions[0])
    ensures var rest := ExecAll(env, first.0, actions[1..]);
            ExecAll(env, w, actions) == (rest.0, first.1.Plus(rest.1))
  {
  }

  lemma RunNone(env: Env, w: World)
    ensures ExecAll(env, w, []) == (w, NOTHING)
  {
  }

  /** A call to outside code has the effect of the actions it makes, or none at all if it reverts. */
  lemma FrameExactly(env: Env, w: World, body: seq<Action>, reverts: bool)
    ensures Exec(env, w, Frame(body, reverts)) == if reverts then None else Some(ExecAll(env, w, body))
  {
  }

  /** The world, and the effects so far, after the first i actions. */
  function At(env: Env, w: World, done: Effects, actions: seq<Action>, i: nat): Visit
    requires i <= |actions|
  {
    var r := ExecAll(env, w, actions[..i]);
    Visit(r.0, done.Plus(r.1))
  }

  /** A world is seen by a list of actions at one of its steps, or inside one of them. */
  ghost predicate SeenAt(env: Env, w: World, done: Effects, actions: seq<Action>, i: nat, v: Visit)
    requires i <= |actions|
  {
    var here := At(env, w, done, actions, i);
    v == here || (i < |actions| && v in Visits(env, here.world, here.done, actions[i]))
  }

  ghost predicate SeenBy(env: Env, w: World, done: Effects, actions: seq<Action>, v: Visit) {
    exists i | 0 <= i <= |actions| :: SeenAt(env, w, done, actions, i, v)
  }

  /** The visited worlds are exactly those between the actions and those inside them. */
  lemma {:induction false} VisitsExactly(env: Env, w: World, done: Effects, actions: seq<Action>, v: Visit)
    ensures v in VisitsAll(env, w, done, actions)
            <==> SeenBy(env, w, done, actions, v)
    decreases actions
  {
    SeenFirst(env, w, done, actions, v);
    if actions != [] {
      var first := Exec(env, w, actions[0]).GetOr((w, NOTHING));
      var rest, after := actions[1..], done.Plus(first.1);
      VisitsExactly(env, first.0, after, rest, v);
      forall i: nat | i <= |rest|
        ensures SeenAt(env, w, done, actions, i + 1, v) <==> SeenAt(env, first.0, after, rest, i, v)
      {
        AtLater(env, w, done, actions, i);
      }
      if SeenBy(env, w, done, actions, v) {
        var i :| 0 <= i <= |actions| && SeenAt(env, w, done, actions, i, v);
        if i > 0 {
          assert SeenAt(env, first.0, after, rest, i - 1, v);
        }
      }
      if SeenBy(env, first.0, after, rest, v) {
        var i :| 0 <= i <= |rest| && SeenAt(env, first.0, after, rest, i, v);
        assert SeenAt(env, w, done, actions, i + 1, v);
      }
    }
  }

  lemma SeenFirst(env: Env, w: World, done: Effects, actions: seq<Action>, v: Visit)
    ensures SeenAt(env, w, done, actions, 0, v)
            <==> v == Visit(w, done) || (actions != [] && v in Visits(env, w, done, actions[0]))
  {
    assert actions[..0] == [];
    RunNone(env, w);
    assert done.Plus(NOTHING) == done;
  }

  lemma AtLater(env: Env, w: World, done: Effects, actions: seq<Action>, i: nat)
    requires i < |actions|
    ensures var first := Exec(env, w, actions[0]).GetOr((w, NOTHING));
            At(env, w, done, actions, i + 1) == At(env, first.0, done.Plus(first.1), actions[1..], i)
  {
    assert actions[..i + 1][1..] == actions[1..][..i];
  }

  /**
   * A loan that begins shows its callback the begun world, with the fee registered, and then the world
   * after each of the callback's actions; and so does every other call to outside code.
   */
  lemma CallbackIsVisited(env: Env, w: World, done: Effects, borrower: Address, receiver: Address, token: Address,
                          amount: nat, callback: seq<Action>, outcome: CallbackOutcome, v: Visit)
    ensures v in Visits(env, w, done, FlashLoan(borrower, receiver, token, amount, callback, outcome))
            <==> && BeginLoan(env, w, borrower, receiver, token, amount).Some?
                 && var begun := BeginLoan(env, w, borrower, receiver, token, amount).value;
                    var fee := MulDiv(amount, w.lender.flashMintFee, FLASH_MINT_FEE_PRECISION);
                    SeenBy(env, begun, done.(registered := done.registered + fee), callback, v)
    ensures v in Visits(env, w, done, Frame(callback, outcome == Reverts))
            <==> SeenBy(env, w, done, callback, v)
  {
    VisitsExactly(env, w, done, callback, v);
    if BeginLoan(env, w, borrower, receiver, token, amount).Some? {
      BeginFacts(env, w, borrower, receiver, token, amount);
      var begun := BeginLoan(env, w, borrower, receiver, token, amount).value;
      var fee := MulDiv(amount, w.lender.flashMintFee, FLASH_MINT_FEE_PRECISION);
      assert done.Plus(NOTHING.(registered := fee)) == done.(registered := done.registered + fee);
      VisitsExactly(env, begun, done.(registered := done.registered + fee), callback, v);
    }
  }

  // ---------- The invariant, in every world that outside code can see ----------

  /** The fees of the loans in flight: registered, and not yet paid. */
  function Pending(loans: seq<Loan>): nat {
    if loans == [] then 0 else loans[|loans| - 1].fee + Pending(loans[..|loans| - 1])
  }

  ghost predicate Backed(u: UsdoState) {
    SumMap(u.balances) == u.totalSupply <= MAX_UINT256
  }

  predicate OneLoan(w: World) {
    && |w.loans| <= 1
    && (w.lender.entered <==> w.loans != [])
    && (forall l | l in w.loans :: l.amount <= Min(l.supplyBefore, l.cap))
  }

  ghost predicate FeesCovered(env: Env, w: World) {
    && w.usdo.fees <= Balance(w.usdo, env.usdo) + Pending(w.loans)
    && (forall x :: Lookup(w.usdo.allowances, (env.usdo, x)) == 0)
    && !env.External(w.usdo.flashLoanHelper)
  }

  ghost predicate Inv(env: Env, w: World) {
    env.Valid() && Backed(w.usdo) && OneLoan(w) && FeesCovered(env, w)
  }

  /** Calls outside code makes: it cannot speak for the two contracts, and no burner burns the token's own balance. */
  predicate SaneCall(env: Env, sender: Address, c: Call) {
    && env.External(sender)
    && (c.BurnRole? ==> c.from != env.usdo)
    && (c.SetHelper? ==> !env.External(c.helper))
  }

  predicate Sane(env: Env, a: Action)
    decreases a, 0
  {
    match a
    case Do(sender, c) => SaneCall(env, sender, c)
    case Frame(body, _) => AllSane(env, body)
    case FlashLoan(borrower, receiver, _, _, callback, _) =>
      env.External(borrower) && env.External(receiver) && AllSane(env, callback)
  }

  predicate AllSane(env: Env, actions: seq<Action>)
    decreases actions, 1
  {
    actions == [] || (Sane(env, actions[0]) && AllSane(env, actions[1..]))
  }

  lemma MintKeepsBacked(u: UsdoState, to: Address, amount: nat)
    requires Backed(u) && MintTokens(u, to, amount).Some?
    ensures Backed(MintTokens(u, to, amount).value)
  {
    SumUpdate(u.balances, to, Balance(u, to) + amount);
  }

  lemma BurnKeepsBacked(u: UsdoState, from: Address, amount: nat)
    requires Backed(u) && BurnTokens(u, from, amount).Some?
    ensures Backed(BurnTokens(u, from, amount).value)
  {
    SumUpdate(u.balances, from, Balance(u, from) - amount);
  }

  lemma MoveKeepsBacked(u: UsdoState, from: Address, to: Address, amount: nat)
    requires Backed(u) && MoveTokens(u, from, to, amount).Some?
    ensures Backed(MoveTokens(u, from, to, amount).value)
  {
    var debited := u.balances[from := Balance(u, from) - amount];
    SumUpdate(u.balances, from, Balance(u, from) - amount);
    SumUpdate(debited, to, Lookup(debited, to) + amount);
  }

  /** Under the invariant a burn's own check suffices: no balance exceeds the supply. */
  lemma BalanceWithinSupply(u: UsdoState, a: Address)
    requires Backed(u)
    ensures Balance(u, a) <= u.totalSupply
  {
    LookupWithinSum(u.balances, a);
  }

  lemma ApplyKeepsBacked(env: Env, w: World, sender: Address, c: Call)
    requires Backed(w.usdo) && Apply(env, w, sender, c).Some?
    ensures Backed(Apply(env, w, sender, c).value.0.usdo)
  {
    var u := w.usdo;
    match c
    case Transfer(to, amount) => MoveKeepsBacked(u, sender, to, amount);
    case TransferFromCall(from, to, amount) =>
      MoveKeepsBacked(SpendAllowance(u, from, sender, amount).value, from, to, amount);
    case MintRole(to, amount) => MintKeepsBacked(u, to, amount);
    case BurnRole(from, amount) => BurnKeepsBacked(u, from, amount);
    case Extract =>
      if u.fees > 0 {
        var toExtract := Extractable(u, env.usdo);
        MoveKeepsBacked(u.(fees := u.fees - toExtract), env.usdo, sender, toExtract);
      }
    case _ =>
  }

  /** Moving tokens of anyone but the token contract never lowers the contract's own balance. */
  lemma MoveBalances(u: UsdoState, from: Address, to: Address, amount: nat, a: Address)
    requires MoveTokens(u, from, to, amount).Some?
    ensures Balance(MoveTokens(u, from, to, amount).value, a)
            == Balance(u, a) - (if a == from then amount else 0) + (if a == to then amount else 0)
  {
  }

  /** A third party cannot touch the token contract's own balance: it never approved anyone. */
  lemma TransferFromKeepsFees(env: Env, w: World, sender: Address, from: Address, to: Address, amount: nat)
    requires env.Valid() && FeesCovered(env, w) && TransferFrom(w.usdo, sender, from, to, amount).Some?
    ensures FeesCovered(env, w.(usdo := TransferFrom(w.usdo, sender, from, to, amount).value))
  {
    MoveBalances(SpendAllowance(w.usdo, from, sender, amount).value, from, to, amount, env.usdo);
  }

  lemma ExtractKeepsFees(env: Env, w: World, receiver: Address)
    requires env.Valid() && FeesCovered(env, w) && receiver != env.usdo
    requires ExtractFees(w.usdo, env.usdo, receiver).Some?
    ensures FeesCovered(env, w.(usdo := ExtractFees(w.usdo, env.usdo, receiver).value))
  {
    var u := w.usdo;
    if u.fees > 0 {
      var toExtract := Extractable(u, env.usdo);
      MoveBalances(u.(fees := u.fees - toExtract), env.usdo, receiver, toExtract, env.usdo);
    }
  }

  lemma ApplyKeepsFees(env: Env, w: World, sender: Address, c: Call)
    requires Inv(env, w) && SaneCall(env, sender, c) && Apply(env, w, sender, c).Some?
    ensures FeesCovered(env, Apply(env, w, sender, c).value.0)
  {
    match c
    case Transfer(to, amount) => MoveBalances(w.usdo, sender, to, amount, env.usdo);
    case TransferFromCall(from, to, amount) => TransferFromKeepsFees(env, w, sender, from, to, amount);
    case Extract => ExtractKeepsFees(env, w, sender);
    case _ =>
  }

  lemma ApplyKeepsInv(env: Env, w: World, sender: Address, c: Call)
    requires Inv(env, w) && SaneCall(env, sender, c) && Apply(env, w, sender, c).Some?
    ensures Inv(env, Apply(env, w, sender, c).value.0)
  {
    ApplyKeepsBacked(env, w, sender, c);
    ApplyKeepsFees(env, w, sender, c);
  }

  lemma BeginKeepsInv(env: Env, w: World, borrower: Address, receiver: Address, token: Address, amount: nat)
    requires Inv(env, w) && env.External(receiver)
    requires BeginLoan(env, w, borrower, receiver, token, amount).Some?
    ensures w.loans == []
    ensures var begun := BeginLoan(env, w, borrower, receiver, token, amount).value;
            && Inv(env, begun)
            && begun.loans == [begun.loans[0]]
            && begun.loans[0].receiver == receiver && begun.loans[0].amount == amount
  {
    BeginFacts(env, w, borrower, receiver, token, amount);
    var begun := BeginLoan(env, w, borrower, receiver, token, amount).value;
    assert begun.loans == [begun.loans[0]] && begun.loans[..0] == [];
    assert Backed(begun.usdo) by {
      MintKeepsBacked(w.usdo, receiver, amount);
    }
    assert Balance(begun.usdo, env.usdo) == Balance(w.usdo, env.usdo);
  }

  lemma EndBalances(env: Env, w: World, receiver: Address, amount: nat, fee: nat)
    requires env.Valid() && env.External(receiver)
    requires EndLoan(env, w, receiver, amount, fee).Some?
    ensures var u := EndLoan(env, w, receiver, amount, fee).value.usdo;
            && Balance(u, env.lender) == Balance(w.usdo, env.lender)
            && Balance(u, env.usdo) == Balance(w.usdo, env.usdo) + fee
            && Balance(u, receiver) == Balance(w.usdo, receiver) - amount - fee
            && (forall x | x != receiver && x != env.usdo :: Balance(u, x) == Balance(w.usdo, x))
            && (forall x :: Lookup(u.allowances, (env.usdo, x)) == Lookup(w.usdo.allowances, (env.usdo, x)))
  {
    forall x
      ensures Balance(EndLoan(env, w, receiver, amount, fee).value.usdo, x)
              == Balance(w.usdo, x) - (if x == receiver then amount + fee else 0) + (if x == env.usdo then fee else 0)
    {
      EndBalance(env, w, receiver, amount, fee, x);
    }
  }

  lemma EndBalance(env: Env, w: World, receiver: Address, amount: nat, fee: nat, x: Address)
    requires env.Valid() && env.External(receiver)
    requires EndLoan(env, w, receiver, amount, fee).Some?
    ensures Balance(EndLoan(env, w, receiver, amount, fee).value.usdo, x)
            == Balance(w.usdo, x) - (if x == receiver then amount + fee else 0) + (if x == env.usdo then fee else 0)
  {
    var u1 := TransferFrom(w.usdo, env.lender, receiver, env.lender, amount).value;
    var u2 := Burn(u1, env.lender, env.lender, amount).value;
    MoveBalances(SpendAllowance(w.usdo, receiver, env.lender, amount).value, receiver, env.lender, amount, x);
    BurnBalances(u1, env.lender, amount, x);
    MoveBalances(SpendAllowance(u2, receiver, env.lender, fee).value, receiver, env.usdo, fee, x);
  }

  lemma BurnBalances(u: UsdoState, from: Address, amount: nat, a: Address)
    requires BurnTokens(u, from, amount).Some?
    ensures Balance(BurnTokens(u, from, amount).value, a) == Balance(u, a) - (if a == from then amount else 0)
  {
  }

  lemma EndKeepsBacked(env: Env, w: World, receiver: Address, amount: nat, fee: nat)
    requires Backed(w.usdo) && EndLoan(env, w, receiver, amount, fee).Some?
    ensures Backed(EndLoan(env, w, receiver, amount, fee).value.usdo)
  {
    var u1 := TransferFrom(w.usdo, env.lender, receiver, env.lender, amount).value;
    MoveKeepsBacked(SpendAllowance(w.usdo, receiver, env.lender, amount).value, receiver, env.lender, amount);
    var u2 := Burn(u1, env.lender, env.lender, amount).value;
    BurnKeepsBacked(u1, env.lender, amount);
    MoveKeepsBacked(SpendAllowance(u2, receiver, env.lender, fee).value, receiver, env.usdo, fee);
  }

  lemma EndKeepsInv(env: Env, w: World, receiver: Address, amount: nat, fee: nat)
    requires Inv(env, w) && env.External(receiver)
    requires |w.loans| == 1 && w.loans[0].fee == fee
    requires EndLoan(env, w, receiver, amount, fee).Some?
    ensures Inv(env, EndLoan(env, w, receiver, amount, fee).value)
  {
    EndKeepsBacked(env, w, receiver, amount, fee);
    EndBalances(env, w, receiver, amount, fee);
    EndAccounts(env, w, receiver, amount, fee);
    assert w.loans[..0] == [];
    assert Pending(w.loans) == fee;
  }

  lemma BeginKeepsBacked(env: Env, w: World, borrower: Address, receiver: Address, token: Address, amount: nat)
    requires Backed(w.usdo) && BeginLoan(env, w, borrower, receiver, token, amount).Some?
    ensures Backed(BeginLoan(env, w, borrower, receiver, token, amount).value.usdo)
  {
    BeginFacts(env, w, borrower, receiver, token, amount);
    MintKeepsBacked(w.usdo, receiver, amount);
  }

  /** Balances sum to the supply over every tree, whatever its senders, burns, helpers and reverts. */
  lemma {:induction false} ExecKeepsBacked(env: Env, w: World, a: Action)
    requires Backed(w.usdo) && Exec(env, w, a).Some?
    ensures Backed(Exec(env, w, a).value.0.usdo)
    decreases a, 0
  {
    match a
    case Do(sender, c) => ApplyKeepsBacked(env, w, sender, c);
    case Frame(body, _) => ExecAllKeepsBacked(env, w, body);
    case FlashLoan(borrower, receiver, token, amount, callback, outcome) =>
      BeginKeepsBacked(env, w, borrower, receiver, token, amount);
      var begun := BeginLoan(env, w, borrower, receiver, token, amount).value;
      ExecAllKeepsBacked(env, begun, callback);
      FinishKeepsBacked(env, ExecAll(env, begun, callback), receiver, amount, begun.loans[|begun.loans| - 1].fee,
                        outcome);
  }

  lemma FinishKeepsBacked(env: Env, left: (World, Effects), receiver: Address, amount: nat, fee: nat,
                          outcome: CallbackOutcome)
    requires Backed(left.0.usdo) && FinishLoan(env, left, receiver, amount, fee, outcome).Some?
    ensures Backed(FinishLoan(env, left, receiver, amount, fee, outcome).value.0.usdo)
  {
    EndKeepsBacked(env, left.0, receiver, amount, fee);
  }

  lemma {:induction false} ExecAllKeepsBacked(env: Env, w: World, actions: seq<Action>)
    requires Backed(w.usdo)
    ensures Backed(ExecAll(env, w, actions).0.usdo)
    decreases actions, 1
  {
    if actions != [] {
      if Exec(env, w, actions[0]).Some? {
        ExecKeepsBacked(env, w, actions[0]);
      }
      ExecAllKeepsBacked(env, Exec(env, w, actions[0]).GetOr((w, NOTHING)).0, actions[1..]);
    }
  }

  /** The invariant survives every action and holds in every world its outside code sees. */
  lemma {:induction false} ExecKeepsInv(env: Env, w: World, done: Effects, a: Action)
    requires Inv(env, w) && Sane(env, a)
    ensures Exec(env, w, a).Some? ==> Inv(env, Exec(env, w, a).value.0)
    ensures forall v | v in Visits(env, w, done, a) :: Inv(env, v.world)
    decreases a, 0
  {
    match a
    case Do(sender, c) =>
      if Apply(env, w, sender, c).Some? {
        ApplyKeepsInv(env, w, sender, c);
      }
    case Frame(body, _) => ExecAllKeepsInv(env, w, done, body);
    case FlashLoan(borrower, receiver, token, amount, callback, outcome) =>
      if BeginLoan(env, w, borrower, receiver, token, amount).Some? {
        BeginKeepsInv(env, w, borrower, receiver, token, amount);
        var begun := BeginLoan(env, w, borrower, receiver, token, amount).value;
        ExecAllKeepsInv(env, begun, done.Plus(NOTHING.(registered := begun.loans[0].fee)), callback);
        ExecAllAccounts(env, begun, callback);
        var after := ExecAll(env, begun, callback).0;
        if EndLoan(env, after, receiver, amount, begun.loans[0].fee).Some? {
          EndKeepsInv(env, after, receiver, amount, begun.loans[0].fee);
        }
      }
  }

  lemma {:induction false} ExecAllKeepsInv(env: Env, w: World, done: Effects, actions: seq<Action>)
    requires Inv(env, w) && AllSane(env, actions)
    ensures Inv(env, ExecAll(env, w, actions).0)
    ensures forall v | v in VisitsAll(env, w, done, actions) :: Inv(env, v.world)
    decreases actions, 1
  {
    if actions != [] {
      ExecKeepsInv(env, w, done, actions[0]);
      var first := Exec(env, w, actions[0]).GetOr((w, NOTHING));
      ExecAllKeepsInv(env, first.0, done.Plus(first.1), actions[1..]);
    }
  }

  /** Where a run starts: both contracts just deployed. */
  function Deployed(env: Env): World {
    World(UsdoState(0, map[], map[], 0, ZERO_ADDRESS, false, {env.usdoOwner}, {env.usdoOwner}),
          LenderState(1, 100000 * 1000000000000000000, map[], false), [])
  }

  /** The amounts of the loans in flight: minted, and not yet burned. */
  function Outstanding(loans: seq<Loan>): nat {
    if loans == [] then 0 else loans[|loans| - 1].amount + Outstanding(loans[..|loans| - 1])
  }

  /** The books: role mints and loans in flight make up the supply, and registered fees are stored or paid out. */
  predicate BooksMatch(w: World, done: Effects) {
    && w.usdo.totalSupply + done.burned == done.minted + Outstanding(w.loans)
    && w.usdo.fees + done.extracted == done.registered
  }

  lemma BooksFollow(w: World, done: Effects, r: (World, Effects))
    requires BooksMatch(w, done) && Accounts(w, r)
    ensures BooksMatch(r.0, done.Plus(r.1))
  {
  }

  lemma BeginKeepsBooks(env: Env, w: World, done: Effects, borrower: Address, receiver: Address, token: Address,
                        amount: nat)
    requires BooksMatch(w, done) && BeginLoan(env, w, borrower, receiver, token, amount).Some?
    ensures var begun := BeginLoan(env, w, borrower, receiver, token, amount).value;
            BooksMatch(begun, done.Plus(NOTHING.(registered := begun.loans[|begun.loans| - 1].fee)))
  {
    BeginFacts(env, w, borrower, receiver, token, amount);
    var begun := BeginLoan(env, w, borrower, receiver, token, amount).value;
    assert begun.loans[..|begun.loans| - 1] == w.loans;
  }

  /** The books match in every world that outside code sees, for every tree whatever its senders and reverts. */
  lemma {:induction false} VisitsKeepBooks(env: Env, w: World, done: Effects, a: Action)
    requires BooksMatch(w, done)
    ensures forall v | v in Visits(env, w, done, a) :: BooksMatch(v.world, v.done)
    decreases a, 0
  {
    match a
    case Do(_, _) =>
    case Frame(body, _) => AllVisitsKeepBooks(env, w, done, body);
    case FlashLoan(borrower, receiver, token, amount, callback, _) =>
      if BeginLoan(env, w, borrower, receiver, token, amount).Some? {
        BeginKeepsBooks(env, w, done, borrower, receiver, token, amount);
        var begun := BeginLoan(env, w, borrower, receiver, token, amount).value;
        AllVisitsKeepBooks(env, begun, done.Plus(NOTHING.(registered := begun.loans[|begun.loans| - 1].fee)), callback);
      }
  }

  lemma {:induction false} AllVisitsKeepBooks(env: Env, w: World, done: Effects, actions: seq<Action>)
    requires BooksMatch(w, done)
    ensures forall v | v in VisitsAll(env, w, done, actions) :: BooksMatch(v.world, v.done)
    decreases actions, 1
  {
    if actions != [] {
      VisitsKeepBooks(env, w, done, actions[0]);
      var first := Exec(env, w, actions[0]).GetOr((w, NOTHING));
      if Exec(env, w, actions[0]).Some? {
        ExecAccounts(env, w, actions[0]);
      }
      BooksFollow(w, done, first);
      AllVisitsKeepBooks(env, first.0, done.Plus(first.1), actions[1..]);
    }
  }

  /** Safety over every run from deployment: the invariant and the books in every world, also inside callbacks. */
  lemma EveryRunIsSafe(env: Env, actions: seq<Action>)
    requires env.Valid() && AllSane(env, actions)
    ensures forall v | v in VisitsAll(env, Deployed(env), NOTHING, actions) ::
              Inv(env, v.world) && BooksMatch(v.world, v.done)
    ensures var r := ExecAll(env, Deployed(env), actions);
            && Inv(env, r.0)
            && r.0.loans == []
            && r.0.usdo.fees <= Balance(r.0.usdo, env.usdo)
            && r.0.usdo.totalSupply == r.1.minted - r.1.burned
            && r.0.usdo.fees == r.1.registered - r.1.extracted
  {
    assert Inv(env, Deployed(env));
    ExecAllKeepsInv(env, Deployed(env), NOTHING, actions);
    AllVisitsKeepBooks(env, Deployed(env), NOTHING, actions);
    ExecAllAccounts(env, Deployed(env), actions);
  }

  /** A burner who may burn the token's own balance keeps the invariant exactly while the rest still covers the fees. */
  lemma OwnBurnExactly(env: Env, w: World, sender: Address, amount: nat)
    requires Inv(env, w) && Apply(env, w, sender, BurnRole(env.usdo, amount)).Some?
    ensures Inv(env, Apply(env, w, sender, BurnRole(env.usdo, amount)).value.0)
            <==> w.usdo.fees + amount <= Balance(w.usdo, env.usdo) + Pending(w.loans)
  {
    ApplyKeepsBacked(env, w, sender, BurnRole(env.usdo, amount));
  }

  /** A token contract that approved nobody cannot lose balance to a transfer by a third party. */
  lemma ThirdPartyKeepsBalance(env: Env, u: UsdoState, sender: Address, from: Address, to: Address, amount: nat)
    requires Lookup(u.allowances, (env.usdo, sender)) == 0
    requires TransferFrom(u, sender, from, to, amount).Some?
    ensures var v := TransferFrom(u, sender, from, to, amount).value;
            Balance(v, env.usdo) >= Balance(u, env.usdo) && v.fees == u.fees
  {
    MoveBalances(SpendAllowance(u, from, sender, amount).value, from, to, amount, env.usdo);
  }

  predicate Covered(env: Env, w: World) {
    w.usdo.fees <= Balance(w.usdo, env.usdo) + Pending(w.loans)
  }

  /**
   * Which plain calls keep the fees covered, for any helper and any burner: all of them, except that a
   * burn of the token's own balance has to leave enough, and a registered fee has to be there already.
   */
  lemma CallKeepsCoverExactly(env: Env, w: World, sender: Address, c: Call)
    requires env.Valid() && env.External(sender) && Covered(env, w)
    requires forall x :: Lookup(w.usdo.allowances, (env.usdo, x)) == 0
    requires Apply(env, w, sender, c).Some?
    ensures var cover := Balance(w.usdo, env.usdo) + Pending(w.loans);
            Covered(env, Apply(env, w, sender, c).value.0)
            <==> && (c.BurnRole? && c.from == env.usdo ==> w.usdo.fees + c.amount <= cover)
                 && (c.AddFee? ==> w.usdo.fees + c.fee <= cover)
  {
    match c
    case Transfer(to, amount) => MoveBalances(w.usdo, sender, to, amount, env.usdo);
    case TransferFromCall(from, to, amount) => ThirdPartyKeepsBalance(env, w.usdo, sender, from, to, amount);
    case Extract => ExtractPaysOwner(env, w, sender, env.usdo);
    case _ =>
  }

  /** An outside helper can register fees nobody paid, so the helper has to stay fixed. */
  lemma OutsideHelperInventsFees(env: Env, helper: Address)
    requires env.Valid() && env.External(env.usdoOwner) && env.External(helper)
    ensures var run := [Do(env.usdoOwner, SetHelper(helper)), Do(helper, AddFee(1))];
            var w := ExecAll(env, Deployed(env), run).0;
            w.usdo.fees == 1 && Balance(w.usdo, env.usdo) == 0 && w.loans == []
  {
    var first, second := Do(env.usdoOwner, SetHelper(helper)), Do(helper, AddFee(1));
    assert [first, second][1..] == [second];
    RunOne(env, Exec(env, Deployed(env), first).value.0, second);
  }

  // ---------- One loan ----------

  /** While a loan is in flight, every world its callback sees has that loan and no other. */
  lemma {:induction false} CallbackSeesOneLoan(env: Env, w: World, done: Effects, a: Action)
    requires w.lender.entered
    ensures a.FlashLoan? ==> Exec(env, w, a) == None
    ensures forall v | v in Visits(env, w, done, a) :: v.world.loans == w.loans && v.world.lender.entered
    decreases a, 0
  {
    match a
    case Do(sender, c) =>
    case Frame(body, _) => CallbackSeesOnlyOneLoan(env, w, done, body);
    case FlashLoan(borrower, receiver, token, amount, callback, outcome) =>
      assert BeginLoan(env, w, borrower, receiver, token, amount) == None;
  }

  lemma {:induction false} CallbackSeesOnlyOneLoan(env: Env, w: World, done: Effects, actions: seq<Action>)
    requires w.lender.entered
    ensures forall v | v in VisitsAll(env, w, done, actions) :: v.world.loans == w.loans && v.world.lender.entered
    decreases actions, 1
  {
    if actions != [] {
      CallbackSeesOneLoan(env, w, done, actions[0]);
      if Exec(env, w, actions[0]).Some? {
        ExecAccounts(env, w, actions[0]);
      }
      var first := Exec(env, w, actions[0]).GetOr((w, NOTHING));
      CallbackSeesOnlyOneLoan(env, first.0, done.Plus(first.1), actions[1..]);
    }
  }

  /** What has to hold after the callback for the repayment to go through. */
  predicate MayRepay(env: Env, w: World, receiver: Address, amount: nat, fee: nat) {
    && !w.usdo.paused && env.lender in w.usdo.burners
    && Balance(w.usdo, receiver) >= amount + fee
    && Covers(Lookup(w.usdo.allowances, (receiver, env.lender)), amount + fee)
  }

  /**
   * The three steps after the callback go through exactly when the token is running, the lender may
   * burn, and the receiver holds, and has approved the lender for, the amount and the fee together.
   */
  lemma RepaymentExactly(env: Env, w: World, receiver: Address, amount: nat, fee: nat)
    requires env.Valid() && env.External(receiver) && Backed(w.usdo)
    ensures EndLoan(env, w, receiver, amount, fee).Some?
            <==> MayRepay(env, w, receiver, amount, fee)
  {
    var u := w.usdo;
    if TransferFrom(u, env.lender, receiver, env.lender, amount).Some? {
      var u1 := TransferFrom(u, env.lender, receiver, env.lender, amount).value;
      MoveBalances(SpendAllowance(u, receiver, env.lender, amount).value, receiver, env.lender, amount, receiver);
      MoveBalances(SpendAllowance(u, receiver, env.lender, amount).value, receiver, env.lender, amount, env.lender);
      BalanceWithinSupply(u, receiver);
      if Burn(u1, env.lender, env.lender, amount).Some? {
        BurnBalances(u1, env.lender, amount, receiver);
      }
    }
  }

  /** Outside a flash loan the supply, the fees and the roles change only for those who hold the role. */
  lemma PrivilegedEffects(env: Env, w: World, sender: Address, c: Call)
    requires Apply(env, w, sender, c).Some?
    ensures var (v, e) := Apply(env, w, sender, c).value;
            && (e.minted > 0 ==> !w.usdo.paused && sender in w.usdo.minters)
            && (e.burned > 0 ==> !w.usdo.paused && sender in w.usdo.burners)
            && (e.registered > 0 ==> sender == w.usdo.flashLoanHelper)
            && (e.extracted > 0 ==> sender == env.usdoOwner)
            && (sender != env.usdoOwner ==>
                (v.usdo.minters, v.usdo.burners, v.usdo.paused, v.usdo.flashLoanHelper)
                == (w.usdo.minters, w.usdo.burners, w.usdo.paused, w.usdo.flashLoanHelper))
            && (sender != env.lenderOwner ==>
                (v.lender.maxFlashMint, v.lender.flashMintFee) == (w.lender.maxFlashMint, w.lender.flashMintFee))
            && (w.lender.flashMintFee < FLASH_MINT_FEE_PRECISION ==> v.lender.flashMintFee < FLASH_MINT_FEE_PRECISION)
  {
    if c.Extract? {
      assert w.usdo.fees == 0 ==> Extractable(w.usdo, env.usdo) == 0;
    }
  }

  /** No sender in the tree is a minter, a burner or the token's owner. */
  predicate Unprivileged(env: Env, u: UsdoState, a: Action)
    decreases a, 0
  {
    match a
    case Do(sender, _) => sender !in u.minters && sender !in u.burners && sender != env.usdoOwner
    case Frame(body, _) => AllUnprivileged(env, u, body)
    case FlashLoan(_, _, _, _, callback, _) => AllUnprivileged(env, u, callback)
  }

  predicate AllUnprivileged(env: Env, u: UsdoState, actions: seq<Action>)
    decreases actions, 1
  {
    actions == [] || (Unprivileged(env, u, actions[0]) && AllUnprivileged(env, u, actions[1..]))
  }

  /** Same roles, and nothing minted, burned or paid out. */
  predicate KeepsSupply(w: World, r: (World, Effects)) {
    && r.0.usdo.minters == w.usdo.minters && r.0.usdo.burners == w.usdo.burners
    && r.0.usdo.flashLoanHelper == w.usdo.flashLoanHelper && r.0.usdo.paused == w.usdo.paused
    && r.1.minted == r.1.burned == r.1.extracted == 0
    && r.0.usdo.totalSupply == w.usdo.totalSupply
  }

  /** Whatever such a tree does, flash loans and their callbacks included, the supply ends where it was. */
  lemma {:induction false} UnprivilegedKeepsSupply(env: Env, w: World, roles: UsdoState, a: Action)
    requires roles.minters == w.usdo.minters && roles.burners == w.usdo.burners
    requires Unprivileged(env, roles, a) && Exec(env, w, a).Some?
    ensures KeepsSupply(w, Exec(env, w, a).value)
    decreases a, 0
  {
    ExecAccounts(env, w, a);
    match a
    case Do(sender, c) => PrivilegedEffects(env, w, sender, c);
    case Frame(body, _) => AllUnprivilegedKeepSupply(env, w, roles, body);
    case FlashLoan(borrower, receiver, token, amount, callback, outcome) =>
      BeginFacts(env, w, borrower, receiver, token, amount);
      var begun := BeginLoan(env, w, borrower, receiver, token, amount).value;
      AllUnprivilegedKeepSupply(env, begun, roles, callback);
      var fee := begun.loans[|begun.loans| - 1].fee;
      FinishKeepsRoles(env, ExecAll(env, begun, callback), receiver, amount, fee, outcome);
  }

  lemma FinishKeepsRoles(env: Env, left: (World, Effects), receiver: Address, amount: nat, fee: nat,
                         outcome: CallbackOutcome)
    requires FinishLoan(env, left, receiver, amount, fee, outcome).Some?
    ensures var (w, e) := FinishLoan(env, left, receiver, amount, fee, outcome).value;
            && w.usdo.minters == left.0.usdo.minters && w.usdo.burners == left.0.usdo.burners
            && w.usdo.flashLoanHelper == left.0.usdo.flashLoanHelper && w.usdo.paused == left.0.usdo.paused
            && (e.minted, e.burned, e.extracted) == (left.1.minted, left.1.burned, left.1.extracted)
  {
  }

  lemma {:induction false} AllUnprivilegedKeepSupply(env: Env, w: World, roles: UsdoState, actions: seq<Action>)
    requires roles.minters == w.usdo.minters && roles.burners == w.usdo.burners
    requires AllUnprivileged(env, roles, actions)
    ensures KeepsSupply(w, ExecAll(env, w, actions))
    decreases actions, 1
  {
    if actions != [] {
      if Exec(env, w, actions[0]).Some? {
        UnprivilegedKeepsSupply(env, w, roles, actions[0]);
      }
      AllUnprivilegedKeepSupply(env, Exec(env, w, actions[0]).GetOr((w, NOTHING)).0, roles, actions[1..]);
    }
  }

  /** Extraction pays the owner the smaller of the fees and the token's own balance, and nobody else. */
  lemma ExtractPaysOwner(env: Env, w: World, sender: Address, a: Address)
    requires sender != env.usdo && Apply(env, w, sender, Extract).Some?
    ensures var (v, e) := Apply(env, w, sender, Extract).value;
            && sender == env.usdoOwner
            && e.extracted == Min(w.usdo.fees, Balance(w.usdo, env.usdo))
            && v.usdo.fees == w.usdo.fees - e.extracted
            && Balance(v.usdo, a) == Balance(w.usdo, a) - (if a == env.usdo then e.extracted else 0)
                                     + (if a == sender then e.extracted else 0)
  {
    var u, toExtract := w.usdo, Extractable(w.usdo, env.usdo);
    if u.fees > 0 {
      MoveBalances(u.(fees := u.fees - toExtract), env.usdo, sender, toExtract, a);
    }
  }

  /**
   * A completed flash loan, whatever its callback did: the supply changes by the callback's role mints
   * and burns only, the receiver pays the amount and the fee, the fee reaches the token contract, and
   * every other balance, the lender's included, is as the callback left it.
   */
  lemma CompletedLoan(env: Env, w: World, borrower: Address, receiver: Address, token: Address, amount: nat,
                      callback: seq<Action>, outcome: CallbackOutcome)
    requires env.Valid() && env.External(receiver)
    requires Exec(env, w, FlashLoan(borrower, receiver, token, amount, callback, outcome)).Some?
    ensures outcome == ReturnsSuccess && token == env.usdo && !w.lender.entered
    ensures amount <= Min(w.usdo.totalSupply, w.lender.maxFlashMint)
    ensures !w.usdo.paused && env.lender in w.usdo.minters && w.usdo.flashLoanHelper == env.lender
    ensures BeginLoan(env, w, borrower, receiver, token, amount).Some?
    ensures var begun := BeginLoan(env, w, borrower, receiver, token, amount).value;
            var left := ExecAll(env, begun, callback);
            var end := Exec(env, w, FlashLoan(borrower, receiver, token, amount, callback, outcome)).value;
            var fee := MulDiv(amount, w.lender.flashMintFee, FLASH_MINT_FEE_PRECISION);
            && Balance(begun.usdo, receiver) == Balance(w.usdo, receiver) + amount
            && (forall x | x != receiver :: Balance(begun.usdo, x) == Balance(w.usdo, x))
            && begun.loans == w.loans + [Loan(receiver, amount, fee, w.usdo.totalSupply, w.lender.maxFlashMint)]
            && (receiver != borrower ==>
                Spends(Lookup(w.lender.allowances, (receiver, borrower)),
                       Lookup(begun.lender.allowances, (receiver, borrower)), amount))
            && (Lookup(left.0.usdo.allowances, (receiver, env.lender)) <= MAX_UINT256 ==>
                Spends(Lookup(left.0.usdo.allowances, (receiver, env.lender)),
                       Lookup(end.0.usdo.allowances, (receiver, env.lender)), amount + fee))
            && end.0.usdo.totalSupply + left.1.burned == w.usdo.totalSupply + left.1.minted
            && end.0.usdo.fees + left.1.extracted == w.usdo.fees + left.1.registered + fee
            && Balance(end.0.usdo, env.lender) == Balance(left.0.usdo, env.lender)
            && Balance(end.0.usdo, env.usdo) == Balance(left.0.usdo, env.usdo) + fee
            && Balance(end.0.usdo, receiver) == Balance(left.0.usdo, receiver) - amount - fee
            && (forall x | x != receiver && x != env.usdo :: Balance(end.0.usdo, x) == Balance(left.0.usdo, x))
            && end.0.loans == w.loans
            && end.1 == left.1.(registered := left.1.registered + fee)
  {
    BeginFacts(env, w, borrower, receiver, token, amount);
    ExecAccounts(env, w, FlashLoan(borrower, receiver, token, amount, callback, outcome));
    var begun := BeginLoan(env, w, borrower, receiver, token, amount).value;
    EndBalances(env, ExecAll(env, begun, callback).0, receiver, amount, begun.loans[|begun.loans| - 1].fee);
    EndSpends(env, ExecAll(env, begun, callback).0, receiver, amount, begun.loans[|begun.loans| - 1].fee);
  }

  lemma EndSpends(env: Env, w: World, receiver: Address, amount: nat, fee: nat)
    requires env.Valid() && env.External(receiver) && EndLoan(env, w, receiver, amount, fee).Some?
    ensures Lookup(w.usdo.allowances, (receiver, env.lender)) <= MAX_UINT256 ==>
              Spends(Lookup(w.usdo.allowances, (receiver, env.lender)),
                     Lookup(EndLoan(env, w, receiver, amount, fee).value.usdo.allowances, (receiver, env.lender)),
                     amount + fee)
  {
  }

  /**
   * When a flash loan as a whole goes through, whatever its callback is: it may begin, the callback
   * returns the agreed value, and in the world the callback leaves the loan can be repaid.
   */
  lemma LoanCompletesExactly(env: Env, w: World, borrower: Address, receiver: Address, token: Address, amount: nat,
                             callback: seq<Action>, outcome: CallbackOutcome)
    requires env.Valid() && env.External(receiver) && Backed(w.usdo)
    ensures Exec(env, w, FlashLoan(borrower, receiver, token, amount, callback, outcome)).Some?
            <==> && MayBegin(env, w, borrower, receiver, token, amount)
                 && outcome == ReturnsSuccess
                 && BeginLoan(env, w, borrower, receiver, token, amount).Some?
                 && var begun := BeginLoan(env, w, borrower, receiver, token, amount).value;
                    MayRepay(env, ExecAll(env, begun, callback).0, receiver, amount,
                             MulDiv(amount, w.lender.flashMintFee, FLASH_MINT_FEE_PRECISION))
  {
    BeginLoanExactly(env, w, borrower, receiver, token, amount);
    if BeginLoan(env, w, borrower, receiver, token, amount).Some? {
      BeginFacts(env, w, borrower, receiver, token, amount);
      BeginKeepsBacked(env, w, borrower, receiver, token, amount);
      var begun := BeginLoan(env, w, borrower, receiver, token, amount).value;
      ExecAllKeepsBacked(env, begun, callback);
      RepaymentExactly(env, ExecAll(env, begun, callback).0, receiver, amount, begun.loans[|begun.loans| - 1].fee);
    }
  }

  /** A world in which one account holds all of the token and the lender has both roles. */
  function OneHolder(env: Env, holder: Address): World {
    World(UsdoState(1000000, map[holder := 1000000], map[], 0, env.lender, false, {env.lender}, {env.lender}),
          LenderState(1, 100000 * 1000000000000000000, map[], false), [])
  }

  lemma OneHolderIsConsistent(env: Env, holder: Address)
    requires env.Valid()
    ensures Inv(env, OneHolder(env, holder))
  {
    var balances := OneHolder(env, holder).usdo.balances;
    SumWithout(balances, holder);
    assert balances - {holder} == map[];
  }

  /** Loans do complete: a holder borrows half the supply, and its callback approves the lender for amount and fee. */
  lemma LoanCompletes(env: Env, holder: Address)
    requires env.Valid() && env.External(holder)
    ensures var loan := FlashLoan(holder, holder, env.usdo, 500000,
                                  [Do(holder, Approve(env.lender, 500005))], ReturnsSuccess);
            Sane(env, loan) && Exec(env, OneHolder(env, holder), loan).Some?
  {
    var w, approve := OneHolder(env, holder), Do(holder, Approve(env.lender, 500005));
    assert AllSane(env, [approve][1..]) && Sane(env, approve);
    OneHolderIsConsistent(env, holder);
    BeginKeepsInv(env, w, holder, holder, env.usdo, 500000);
    BeginFacts(env, w, holder, holder, env.usdo, 500000);
    var begun := BeginLoan(env, w, holder, holder, env.usdo, 500000).value;
    RunOne(env, begun, approve);
    ApplyKeepsInv(env, begun, holder, Approve(env.lender, 500005));
    RepaymentExactly(env, Exec(env, begun, approve).value.0, holder, 500000, 5);
  }

  lemma RunOne(env: Env, w: World, a: Action)
    requires Exec(env, w, a).Some?
    ensures ExecAll(env, w, [a]).0 == Exec(env, w, a).value.0
  {
    assert [a][1..] == [];
    assert ExecAll(env, Exec(env, w, a).value.0, []).0 == Exec(env, w, a).value.0;
  }
}
