/**
 * Flash minting of USDO (contracts/usdo/USDOFlashloanHelper.sol with contracts/usdo/Usdo.sol), as a
 * transition system whose actions form trees: a borrower's callback is any list of further actions.
 * ERC-3156 calls this contract the lender.
 */
module FlashLender {
  import opened Wrappers
  import opened Arithmetic
  import opened Primitives
  import opened Usdo

  const FLASH_MINT_FEE_PRECISION: nat := 100000

  datatype LenderState = LenderState(
    flashMintFee: nat,
    maxFlashMint: nat,
    allowances: map<(Address, Address), nat>,
    entered: bool)

  /** A loan between its mint and its repayment, with the supply and the cap it was granted under. */
  datatype Loan = Loan(receiver: Address, amount: nat, fee: nat, supplyBefore: nat, cap: nat)

  /** The two contracts, and, as history, the loans that are outstanding. */
  datatype World = World(usdo: UsdoState, lender: LenderState, loans: seq<Loan>)

  /** The fixed addresses. */
  datatype Env = Env(usdo: Address, lender: Address, usdoOwner: Address, lenderOwner: Address) {
    predicate Valid() {
      usdo != lender && usdo != ZERO_ADDRESS && lender != ZERO_ADDRESS
    }

    /** Accounts whose code is not one of the two contracts: anyone who can send an arbitrary call. */
    predicate External(a: Address) {
      a != usdo && a != lender && a != ZERO_ADDRESS
    }
  }

  datatype CallbackOutcome = ReturnsSuccess | ReturnsOther | Reverts

  /** A call to one of the two contracts that makes no call of its own to outside code. */
  datatype Call =
    | Transfer(to: Address, amount: nat)
    | TransferFromCall(from: Address, to: Address, amount: nat)
    | Approve(spender: Address, amount: nat)
    | MintRole(to: Address, amount: nat)
    | BurnRole(from: Address, amount: nat)
    | AddFee(fee: nat)
    | Pause(pauseState: bool)
    | SetHelper(helper: Address)
    | Extract
    | SetMinter(a: Address, status: bool)
    | SetBurner(a: Address, status: bool)
    | LenderApprove(spender: Address, amount: nat)
    | SetMaxFlashMint(value: nat)
    | SetFlashMintFee(value: nat)

  /**
   * One node of a call tree: a plain call, a call to some other contract that performs actions of its
   * own and then returns or reverts, or a flash loan with its callback.
   */
  datatype Action =
    | Do(sender: Address, call: Call)
    | Frame(body: seq<Action>, reverts: bool)
    | FlashLoan(borrower: Address, receiver: Address, token: Address, amount: nat,
                callback: seq<Action>, outcome: CallbackOutcome)

  /** What the successful part of a tree did: role mints and burns, fees registered, fees paid out. */
  datatype Effects = Effects(minted: nat, burned: nat, registered: nat, extracted: nat) {
    function Plus(e: Effects): Effects {
      Effects(minted + e.minted, burned + e.burned, registered + e.registered, extracted + e.extracted)
    }
  }

  const NOTHING := Effects(0, 0, 0, 0)

  // ---------- The lender ----------

  function MaxFlashLoan(w: World): nat {
    if w.usdo.totalSupply > w.lender.maxFlashMint then w.lender.maxFlashMint else w.usdo.totalSupply
  }

  /** None when the product overflows. */
  function FlashFee(l: LenderState, amount: nat): Option<nat> {
    var _ :- Require(amount * l.flashMintFee <= MAX_UINT256);
    Some(MulDiv(amount, l.flashMintFee, FLASH_MINT_FEE_PRECISION))
  }

  function SetLenderAllowance(l: LenderState, owner: Address, spender: Address, amount: nat): Option<LenderState> {
    var _ :- Require(owner != ZERO_ADDRESS && spender != ZERO_ADDRESS);
    Some(l.(allowances := l.allowances[(owner, spender) := amount]))
  }

  function SpendLenderAllowance(l: LenderState, owner: Address, spender: Address, amount: nat): Option<LenderState> {
    var current := Lookup(l.allowances, (owner, spender));
    var _ :- Require(current >= amount);
    if current == MAX_UINT256 then Some(l)
    else SetLenderAllowance(l, owner, spender, current - amount)
  }

  /** flashLoan up to the callback. */
  function BeginLoan(env: Env, w: World, borrower: Address, receiver: Address, token: Address, amount: nat)
    : Option<World>
  {
    var _ :- Require(token == env.usdo);
    var lender :- if receiver != borrower then SpendLenderAllowance(w.lender, receiver, borrower, amount)
                  else Some(w.lender);
    var _ :- Require(!lender.entered);
    var lender := lender.(entered := true);
    var _ :- Require(MaxFlashLoan(w) >= amount);
    var fee :- FlashFee(lender, amount);
    var usdo :- Mint(w.usdo, env.lender, receiver, amount);
    var usdo :- AddFlashloanFee(usdo, env.lender, fee);
    Some(World(usdo, lender, w.loans + [Loan(receiver, amount, fee, w.usdo.totalSupply, w.lender.maxFlashMint)]))
  }

  /** flashLoan after the callback has returned the expected value. */
  function EndLoan(env: Env, w: World, receiver: Address, amount: nat, fee: nat): Option<World> {
    var usdo :- TransferFrom(w.usdo, env.lender, receiver, env.lender, amount);
    var usdo :- Burn(usdo, env.lender, env.lender, amount);
    var usdo :- TransferFrom(usdo, env.lender, receiver, env.usdo, fee);
    Some(World(usdo, w.lender.(entered := false), if w.loans == [] then [] else w.loans[..|w.loans| - 1]))
  }

  /** flashLoan from the return of the callback on, given the world and the effects it left. */
  function FinishLoan(env: Env, left: (World, Effects), receiver: Address, amount: nat, fee: nat,
                      outcome: CallbackOutcome): Option<(World, Effects)>
  {
    var _ :- Require(outcome == ReturnsSuccess);
    var ended :- EndLoan(env, left.0, receiver, amount, fee);
    Some((ended, NOTHING.(registered := fee).Plus(left.1)))
  }

  // ---------- Running a tree ----------

  function OnUsdo(w: World, u: Option<UsdoState>, e: Effects): Option<(World, Effects)> {
    var u :- u;
    Some((w.(usdo := u), e))
  }

  function OnLender(w: World, l: Option<LenderState>): Option<(World, Effects)> {
    var l :- l;
    Some((w.(lender := l), NOTHING))
  }

  function OwnerOnly(allowed: bool, u: Option<UsdoState>): Option<UsdoState> {
    if allowed then u else None
  }

  /** A plain call; None is a revert. */
  function Apply(env: Env, w: World, sender: Address, c: Call): Option<(World, Effects)> {
    var u, owner := w.usdo, sender == env.usdoOwner;
    match c
    case Transfer(to, amount) => OnUsdo(w, MoveTokens(u, sender, to, amount), NOTHING)
    case TransferFromCall(from, to, amount) => OnUsdo(w, TransferFrom(u, sender, from, to, amount), NOTHING)
    case Approve(spender, amount) => OnUsdo(w, SetAllowance(u, sender, spender, amount), NOTHING)
    case MintRole(to, amount) => OnUsdo(w, Mint(u, sender, to, amount), NOTHING.(minted := amount))
    case BurnRole(from, amount) => OnUsdo(w, Burn(u, sender, from, amount), NOTHING.(burned := amount))
    case AddFee(fee) => OnUsdo(w, AddFlashloanFee(u, sender, fee), NOTHING.(registered := fee))
    case Pause(b) => OnUsdo(w, OwnerOnly(owner, SetPause(u, b)), NOTHING)
    case SetHelper(h) => OnUsdo(w, OwnerOnly(owner, Some(u.(flashLoanHelper := h))), NOTHING)
    case Extract => OnUsdo(w, OwnerOnly(owner, ExtractFees(u, env.usdo, sender)),
                           NOTHING.(extracted := Extractable(u, env.usdo)))
    case SetMinter(a, b) => OnUsdo(w, OwnerOnly(owner, Some(u.(minters := WithStatus(u.minters, a, b)))), NOTHING)
    case SetBurner(a, b) => OnUsdo(w, OwnerOnly(owner, Some(u.(burners := WithStatus(u.burners, a, b)))), NOTHING)
    case LenderApprove(spender, amount) => OnLender(w, SetLenderAllowance(w.lender, sender, spender, amount))
    case SetMaxFlashMint(v) =>
      OnLender(w, if sender == env.lenderOwner then Some(w.lender.(maxFlashMint := v)) else None)
    case SetFlashMintFee(v) =>
      OnLender(w, if sender == env.lenderOwner && v < FLASH_MINT_FEE_PRECISION
                  then Some(w.lender.(flashMintFee := v)) else None)
  }

  /** One action of a tree; None is a revert, which undoes everything below it. */
  function Exec(env: Env, w: World, a: Action): Option<(World, Effects)>
    decreases a, 0
  {
    match a
    case Do(sender, c) => Apply(env, w, sender, c)
    case Frame(body, reverts) =>
      var r := ExecAll(env, w, body);
      if reverts then None else Some(r)
    case FlashLoan(borrower, receiver, token, amount, callback, outcome) =>
      var begun :- BeginLoan(env, w, borrower, receiver, token, amount);
      var loan := begun.loans[|begun.loans| - 1];
      FinishLoan(env, ExecAll(env, begun, callback), receiver, amount, loan.fee, outcome)
  }

  /** A list of actions by one piece of outside code, which carries on after a call of its own reverts. */
  function ExecAll(env: Env, w: World, actions: seq<Action>): (World, Effects)
    decreases actions, 1
  {
    if actions == [] then (w, NOTHING) else
      var first := Exec(env, w, actions[0]).GetOr((w, NOTHING));
      var rest := ExecAll(env, first.0, actions[1..]);
      (rest.0, first.1.Plus(rest.1))
  }

  /** A world that outside code sees, with the effects of everything up to then that has not been undone. */
  datatype Visit = Visit(world: World, done: Effects)

  /** Every world in which some outside code is running during an action, reverted or not. */
  function Visits(env: Env, w: World, done: Effects, a: Action): seq<Visit>
    decreases a, 0
  {
    match a
    case Do(_, _) => []
    case Frame(body, _) => VisitsAll(env, w, done, body)
    case FlashLoan(borrower, receiver, token, amount, callback, _) =>
      match BeginLoan(env, w, borrower, receiver, token, amount)
      case None => []
      case Some(begun) =>
        VisitsAll(env, begun, done.Plus(NOTHING.(registered := begun.loans[|begun.loans| - 1].fee)), callback)
  }

  function VisitsAll(env: Env, w: World, done: Effects, actions: seq<Action>): seq<Visit>
    decreases actions, 1
  {
    if actions == [] then [Visit(w, done)] else
      var first := Exec(env, w, actions[0]).GetOr((w, NOTHING));
      [Visit(w, done)] + Visits(env, w, done, actions[0]) + VisitsAll(env, first.0, done.Plus(first.1), actions[1..])
  }

  // ---------- The contract ----------

  /** The deployed flash loan helper, together with the token it mints. */
  class Helper {
    const usdo: UsdoToken
    const self: Address
    const owner: Address
    var flashMintFee: nat
    var maxFlashMint: nat
    var allowances: map<(Address, Address), nat>
    var entered: bool
    ghost var loans: seq<Loan>

    function Lender(): LenderState
      reads this
    {
      LenderState(flashMintFee, maxFlashMint, allowances, entered)
    }

    ghost function State(): World
      reads this, usdo
    {
      World(usdo.State(), Lender(), loans)
    }

    ghost function Addresses(): Env {
      Env(usdo.self, self, usdo.owner, owner)
    }

    constructor (usdo: UsdoToken, self: Address, owner: Address)
      ensures this.usdo == usdo && this.self == self && this.owner == owner
      ensures Lender() == LenderState(1, 100000 * 1000000000000000000, map[], false) && loans == []
    {
      this.usdo, this.self, this.owner := usdo, self, owner;
      flashMintFee, maxFlashMint := 1, 100000 * 1000000000000000000;
      allowances, entered, loans := map[], false, [];
    }

    /** A revert: both contracts are back in the world before the call. */
    method RestoreAll(u: UsdoState, l: LenderState, ghost before: World)
      requires before.usdo == u && before.lender == l
      modifies this, usdo
      ensures State() == before
    {
      usdo.Restore(u);
      flashMintFee, maxFlashMint, allowances, entered := l.flashMintFee, l.maxFlashMint, l.allowances, l.entered;
      loans := before.loans;
    }

    method ApproveLender(sender: Address, spender: Address, amount: nat) returns (ok: bool)
      modifies this
      ensures loans == old(loans)
      ensures ok == SetLenderAllowance(old(Lender()), sender, spender, amount).Some?
      ensures Lender() == SetLenderAllowance(old(Lender()), sender, spender, amount).GetOr(old(Lender()))
    {
      ok := sender != ZERO_ADDRESS && spender != ZERO_ADDRESS;
      if ok {
        allowances := allowances[(sender, spender) := amount];
      }
    }

    method SetMaxFlashMintable(sender: Address, v: nat) returns (ok: bool)
      modifies this
      ensures loans == old(loans)
      ensures ok == (sender == owner)
      ensures Lender() == if ok then old(Lender()).(maxFlashMint := v) else old(Lender())
    {
      ok := sender == owner;
      if ok {
        maxFlashMint := v;
      }
    }

    method SetFee(sender: Address, v: nat) returns (ok: bool)
      modifies this
      ensures loans == old(loans)
      ensures ok == (sender == owner && v < FLASH_MINT_FEE_PRECISION)
      ensures Lender() == if ok then old(Lender()).(flashMintFee := v) else old(Lender())
    {
      ok := sender == owner && v < FLASH_MINT_FEE_PRECISION;
      if ok {
        flashMintFee := v;
      }
    }

    method MaxLoan() returns (max: nat)
      ensures max == MaxFlashLoan(State())
    {
      max := if usdo.totalSupply > maxFlashMint then maxFlashMint else usdo.totalSupply;
    }

    method SpendAllowanceOf(receiver: Address, spender: Address, amount: nat) returns (ok: bool)
      modifies this
      ensures loans == old(loans)
      ensures ok == SpendLenderAllowance(old(Lender()), receiver, spender, amount).Some?
      ensures Lender() == SpendLenderAllowance(old(Lender()), receiver, spender, amount).GetOr(old(Lender()))
    {
      var current := Lookup(allowances, (receiver, spender));
      if current < amount { return false; }
      if current == MAX_UINT256 { return true; }
      ok := ApproveLender(receiver, spender, current - amount);
    }

    /** The part of flashLoan before the callback; on a revert the caller restores. */
    method Begin(borrower: Address, receiver: Address, token: Address, amount: nat) returns (ok: bool, fee: nat)
      modifies this, usdo
      ensures var r := BeginLoan(Addresses(), old(State()), borrower, receiver, token, amount);
              && ok == r.Some?
              && (ok ==> State() == r.value && fee == r.value.loans[|r.value.loans| - 1].fee)
    {
      fee := 0;
      if token != usdo.self { return false, 0; }
      if receiver != borrower {
        ok := SpendAllowanceOf(receiver, borrower, amount);
        if !ok { return; }
      }
      if entered { return false, 0; }
      entered := true;
      var max := MaxLoan();
      if max < amount { return false, 0; }
      if amount * flashMintFee > MAX_UINT256 { return false, 0; }
      fee := MulDiv(amount, flashMintFee, FLASH_MINT_FEE_PRECISION);
      ghost var supplyBefore := usdo.totalSupply;
      ok := usdo.MintCall(self, receiver, amount);
      if !ok { return; }
      ok := usdo.AddFlashloanFeeCall(self, fee);
      loans := loans + [Loan(receiver, amount, fee, supplyBefore, maxFlashMint)];
    }

    /** The part of flashLoan after the callback. */
    method End(receiver: Address, amount: nat, fee: nat) returns (ok: bool)
      modifies this, usdo
      ensures var r := EndLoan(Addresses(), old(State()), receiver, amount, fee);
              && ok == r.Some?
              && (ok ==> State() == r.value)
    {
      ok := usdo.TransferFromCall(self, receiver, self, amount);
      if !ok { return; }
      ok := usdo.BurnCall(self, self, amount);
      if !ok { return; }
      ok := usdo.TransferFromCall(self, receiver, usdo.self, fee);
      if !ok { return; }
      entered := false;
      loans := if loans == [] then [] else loans[..|loans| - 1];
    }

    method LoanTo(borrower: Address, receiver: Address, token: Address, amount: nat,
                  callback: seq<Action>, outcome: CallbackOutcome) returns (ok: bool)
      modifies this, usdo
      ensures var r := Exec(Addresses(), old(State()),
                            FlashLoan(borrower, receiver, token, amount, callback, outcome));
              && ok == r.Some?
              && State() == (if r.Some? then r.value.0 else old(State()))
      decreases callback, 2
    {
      var usdoBefore, lenderBefore := usdo.State(), Lender();
      ghost var before := State();
      var fee;
      ok, fee := Begin(borrower, receiver, token, amount);
      if ok {
        ghost var begun := State();
        RunAll(callback);
        ghost var left := ExecAll(Addresses(), begun, callback);
        assert Exec(Addresses(), before, FlashLoan(borrower, receiver, token, amount, callback, outcome))
            == FinishLoan(Addresses(), left, receiver, amount, fee, outcome);
        ok := outcome == ReturnsSuccess;
        if ok {
          ok := End(receiver, amount, fee);
        }
      }
      if !ok {
        RestoreAll(usdoBefore, lenderBefore, before);
      }
    }

    /** Runs what outside code does, one call after the other. */
    method RunAll(actions: seq<Action>)
      modifies this, usdo
      ensures State() == ExecAll(Addresses(), old(State()), actions).0
      decreases actions, 1
    {
      if actions != [] {
        var _ := Run(actions[0]);
        RunAll(actions[1..]);
      }
    }

    method Run(a: Action) returns (ok: bool)
      modifies this, usdo
      ensures var r := Exec(Addresses(), old(State()), a);
              && ok == r.Some?
              && State() == (if r.Some? then r.value.0 else old(State()))
      decreases a, 0
    {
      match a
      case Do(sender, c) =>
        ok := Dispatch(sender, c);
      case Frame(body, reverts) =>
        var usdoBefore, lenderBefore := usdo.State(), Lender();
        ghost var before := State();
        RunAll(body);
        ok := !reverts;
        if reverts {
          RestoreAll(usdoBefore, lenderBefore, before);
        }
      case FlashLoan(borrower, receiver, token, amount, callback, outcome) =>
        ok := LoanTo(borrower, receiver, token, amount, callback, outcome);
    }

    method Dispatch(sender: Address, c: Call) returns (ok: bool)
      modifies this, usdo
      ensures var r := Apply(Addresses(), old(State()), sender, c);
              && ok == r.Some?
              && State() == (if r.Some? then r.value.0 else old(State()))
    {
      match c
      case Transfer(to, amount) => ok := usdo.TransferCall(sender, to, amount);
      case TransferFromCall(from, to, amount) => ok := usdo.TransferFromCall(sender, from, to, amount);
      case Approve(spender, amount) => ok := usdo.ApproveCall(sender, spender, amount);
      case MintRole(to, amount) => ok := usdo.MintCall(sender, to, amount);
      case BurnRole(from, amount) => ok := usdo.BurnCall(sender, from, amount);
      case AddFee(fee) => ok := usdo.AddFlashloanFeeCall(sender, fee);
      case LenderApprove(spender, amount) => ok := ApproveLender(sender, spender, amount);
      case SetMaxFlashMint(v) => ok := SetMaxFlashMintable(sender, v);
      case SetFlashMintFee(v) => ok := SetFee(sender, v);
      case _ => ok := DispatchOwner(sender, c);
    }

    method DispatchOwner(sender: Address, c: Call) returns (ok: bool)
      requires c.Pause? || c.SetHelper? || c.Extract? || c.SetMinter? || c.SetBurner?
      modifies usdo
      ensures var r := Apply(Addresses(), old(State()), sender, c);
              && ok == r.Some?
              && State() == (if r.Some? then r.value.0 else old(State()))
    {
      if sender != usdo.owner { return false; }
      ok := true;
      match c
      case Pause(b) => ok := usdo.SetPauseCall(b);
      case SetHelper(h) => usdo.SetFlashloanHelperCall(h);
      case Extract => ok := usdo.ExtractFeesCall(sender);
      case SetMinter(a, b) => usdo.SetMinterStatusCall(a, b);
      case SetBurner(a, b) => usdo.SetBurnerStatusCall(a, b);
    }
  }
}
