/**
 * The USDO token (contracts/usdo/Usdo.sol): an OpenZeppelin ERC20 with minter and burner roles, a
 * pause switch and the flash loan fees it is owed. One chain: the role mappings are read at its id.
 */
module Usdo {
  import opened Wrappers
  import opened Arithmetic
  import opened Primitives

  datatype UsdoState = UsdoState(
    totalSupply: nat,
    balances: map<Address, nat>,
    allowances: map<(Address, Address), nat>,
    fees: nat,
    flashLoanHelper: Address,
    paused: bool,
    minters: set<Address>,
    burners: set<Address>)

  function Balance(u: UsdoState, a: Address): nat {
    Lookup(u.balances, a)
  }

  // ---------- ERC20 ----------

  function MintTokens(u: UsdoState, to: Address, amount: nat): Option<UsdoState> {
    var _ :- Require(to != ZERO_ADDRESS);
    var _ :- Require(u.totalSupply + amount <= MAX_UINT256);
    Some(u.(totalSupply := u.totalSupply + amount,
            balances := u.balances[to := Balance(u, to) + amount]))
  }

  function BurnTokens(u: UsdoState, from: Address, amount: nat): Option<UsdoState> {
    var _ :- Require(from != ZERO_ADDRESS);
    var _ :- Require(Balance(u, from) >= amount && u.totalSupply >= amount);
    Some(u.(totalSupply := u.totalSupply - amount,
            balances := u.balances[from := Balance(u, from) - amount]))
  }

  function MoveTokens(u: UsdoState, from: Address, to: Address, amount: nat): Option<UsdoState> {
    var _ :- Require(from != ZERO_ADDRESS && to != ZERO_ADDRESS);
    var _ :- Require(Balance(u, from) >= amount);
    var debited := u.(balances := u.balances[from := Balance(u, from) - amount]);
    Some(debited.(balances := debited.balances[to := Balance(debited, to) + amount]))
  }

  function SetAllowance(u: UsdoState, owner: Address, spender: Address, amount: nat): Option<UsdoState> {
    var _ :- Require(owner != ZERO_ADDRESS && spender != ZERO_ADDRESS);
    Some(u.(allowances := u.allowances[(owner, spender) := amount]))
  }

  function SpendAllowance(u: UsdoState, owner: Address, spender: Address, amount: nat): Option<UsdoState> {
    var current := Lookup(u.allowances, (owner, spender));
    if current == MAX_UINT256 then Some(u) else
      var _ :- Require(current >= amount);
      SetAllowance(u, owner, spender, current - amount)
  }

  function TransferFrom(u: UsdoState, sender: Address, from: Address, to: Address, amount: nat): Option<UsdoState> {
    var u :- SpendAllowance(u, from, sender, amount);
    MoveTokens(u, from, to, amount)
  }

  // ---------- USDO ----------

  function Mint(u: UsdoState, sender: Address, to: Address, amount: nat): Option<UsdoState> {
    var _ :- Require(!u.paused && sender in u.minters);
    MintTokens(u, to, amount)
  }

  function Burn(u: UsdoState, sender: Address, from: Address, amount: nat): Option<UsdoState> {
    var _ :- Require(!u.paused && sender in u.burners);
    BurnTokens(u, from, amount)
  }

  function AddFlashloanFee(u: UsdoState, sender: Address, fee: nat): Option<UsdoState> {
    var _ :- Require(sender == u.flashLoanHelper);
    var _ :- Require(u.fees + fee <= MAX_UINT256);
    Some(u.(fees := u.fees + fee))
  }

  function SetPause(u: UsdoState, pauseState: bool): Option<UsdoState> {
    var _ :- Require(u.paused != pauseState);
    Some(u.(paused := pauseState))
  }

  /** What extractFees would transfer. */
  function Extractable(u: UsdoState, self: Address): nat {
    Min(u.fees, Balance(u, self))
  }

  function ExtractFees(u: UsdoState, self: Address, receiver: Address): Option<UsdoState> {
    if u.fees == 0 then Some(u) else
      var toExtract := Extractable(u, self);
      MoveTokens(u.(fees := u.fees - toExtract), self, receiver, toExtract)
  }

  function WithStatus(roles: set<Address>, a: Address, status: bool): set<Address> {
    if status then roles + {a} else roles - {a}
  }

  // ---------- The contract ----------

  /** The deployed token. Methods return false for a revert, which leaves the state as it was. */
  class UsdoToken {
    const self: Address
    const owner: Address
    var totalSupply: nat
    var balances: map<Address, nat>
    var allowances: map<(Address, Address), nat>
    var fees: nat
    var flashLoanHelper: Address
    var paused: bool
    var minters: set<Address>
    var burners: set<Address>

    function State(): UsdoState
      reads this
    {
      UsdoState(totalSupply, balances, allowances, fees, flashLoanHelper, paused, minters, burners)
    }

    constructor (self: Address, owner: Address)
      ensures this.self == self && this.owner == owner
      ensures State() == UsdoState(0, map[], map[], 0, ZERO_ADDRESS, false, {owner}, {owner})
    {
      this.self, this.owner := self, owner;
      totalSupply, balances, allowances, fees := 0, map[], map[], 0;
      flashLoanHelper, paused := ZERO_ADDRESS, false;
      minters, burners := {owner}, {owner};
    }

    /** Undoes every write since the snapshot was taken: what a revert further up the call tree does. */
    method Restore(u: UsdoState)
      modifies this
      ensures State() == u
    {
      totalSupply, balances, allowances, fees := u.totalSupply, u.balances, u.allowances, u.fees;
      flashLoanHelper, paused := u.flashLoanHelper, u.paused;
      minters, burners := u.minters, u.burners;
    }

    method ApproveCall(sender: Address, spender: Address, amount: nat) returns (ok: bool)
      modifies this
      ensures ok == SetAllowance(old(State()), sender, spender, amount).Some?
      ensures State() == SetAllowance(old(State()), sender, spender, amount).GetOr(old(State()))
    {
      ok := sender != ZERO_ADDRESS && spender != ZERO_ADDRESS;
      if ok {
        allowances := allowances[(sender, spender) := amount];
      }
    }

    method TransferCall(from: Address, to: Address, amount: nat) returns (ok: bool)
      modifies this
      ensures ok == MoveTokens(old(State()), from, to, amount).Some?
      ensures State() == MoveTokens(old(State()), from, to, amount).GetOr(old(State()))
    {
      ok := from != ZERO_ADDRESS && to != ZERO_ADDRESS && Lookup(balances, from) >= amount;
      if ok {
        balances := balances[from := Lookup(balances, from) - amount];
        balances := balances[to := Lookup(balances, to) + amount];
      }
    }

    method TransferFromCall(sender: Address, from: Address, to: Address, amount: nat) returns (ok: bool)
      modifies this
      ensures ok == TransferFrom(old(State()), sender, from, to, amount).Some?
      ensures State() == TransferFrom(old(State()), sender, from, to, amount).GetOr(old(State()))
    {
      var before := State();
      var current := Lookup(allowances, (from, sender));
      if current != MAX_UINT256 {
        if current < amount { return false; }
        ok := ApproveCall(from, sender, current - amount);
        if !ok { return; }
      }
      ok := TransferCall(from, to, amount);
      if !ok {
        Restore(before);
      }
    }

    method MintCall(sender: Address, to: Address, amount: nat) returns (ok: bool)
      modifies this
      ensures ok == Mint(old(State()), sender, to, amount).Some?
      ensures State() == Mint(old(State()), sender, to, amount).GetOr(old(State()))
    {
      if paused || sender !in minters { return false; }
      if to == ZERO_ADDRESS || totalSupply + amount > MAX_UINT256 { return false; }
      totalSupply := totalSupply + amount;
      balances := balances[to := Lookup(balances, to) + amount];
      return true;
    }

    method BurnCall(sender: Address, from: Address, amount: nat) returns (ok: bool)
      modifies this
      ensures ok == Burn(old(State()), sender, from, amount).Some?
      ensures State() == Burn(old(State()), sender, from, amount).GetOr(old(State()))
    {
      if paused || sender !in burners { return false; }
      if from == ZERO_ADDRESS || Lookup(balances, from) < amount || totalSupply < amount { return false; }
      balances := balances[from := Lookup(balances, from) - amount];
      totalSupply := totalSupply - amount;
      return true;
    }

    method AddFlashloanFeeCall(sender: Address, fee: nat) returns (ok: bool)
      modifies this
      ensures ok == AddFlashloanFee(old(State()), sender, fee).Some?
      ensures State() == AddFlashloanFee(old(State()), sender, fee).GetOr(old(State()))
    {
      ok := sender == flashLoanHelper && fees + fee <= MAX_UINT256;
      if ok {
        fees := fees + fee;
      }
    }

    method SetPauseCall(pauseState: bool) returns (ok: bool)
      modifies this
      ensures ok == SetPause(old(State()), pauseState).Some?
      ensures State() == SetPause(old(State()), pauseState).GetOr(old(State()))
    {
      ok := paused != pauseState;
      paused := pauseState;
    }

    method ExtractFeesCall(sender: Address) returns (ok: bool)
      modifies this
      ensures ok == ExtractFees(old(State()), self, sender).Some?
      ensures State() == ExtractFees(old(State()), self, sender).GetOr(old(State()))
    {
      var before := State();
      ok := true;
      if fees > 0 {
        var balance := Lookup(balances, self);
        var toExtract := if balance >= fees then fees else balance;
        fees := fees - toExtract;
        ok := TransferCall(self, sender, toExtract);
        if !ok {
          Restore(before);
        }
      }
    }

    method SetFlashloanHelperCall(helper: Address)
      modifies this
      ensures State() == old(State()).(flashLoanHelper := helper)
    {
      flashLoanHelper := helper;
    }

    method SetMinterStatusCall(a: Address, status: bool)
      modifies this
      ensures State() == old(State()).(minters := WithStatus(old(minters), a, status))
    {
      minters := WithStatus(minters, a, status);
    }

    method SetBurnerStatusCall(a: Address, status: bool)
      modifies this
      ensures State() == old(State()).(burners := WithStatus(old(burners), a, status))
    {
      burners := WithStatus(burners, a, status);
    }
  }
}
