/**
 * The token side of a market: contracts/markets/MarketERC20.sol, and the allowance checks of
 * contracts/markets/Market.sol that spend its allowances. Signature recovery is a parameter.
 */
module MarketLedger {
  import opened Wrappers
  import opened Arithmetic
  import opened Primitives

  datatype LedgerState = LedgerState(
    balances: map<Address, nat>,
    allowance: map<(Address, Address), nat>,
    allowanceBorrow: map<(Address, Address), nat>,
    nonces: map<Address, nat>)

  /** What an owner signs; asset tells the two kinds of permit apart. Hashing is taken to be injective. */
  datatype Digest = Digest(asset: bool, owner: Address, spender: Address, value: nat, nonce: nat, deadline: nat)

  /** The signer a signature recovers to on a digest; the zero address is a failed recovery. */
  type Recovery = (Digest, nat) -> Address

  datatype Op =
    | Transfer(sender: Address, to: Address, amount: nat)
    | TransferFrom(sender: Address, from: Address, to: Address, amount: nat)
    | Approve(sender: Address, spender: Address, amount: nat)
    | ApproveBorrow(sender: Address, spender: Address, amount: nat)
    | Permit(asset: bool, owner: Address, spender: Address, value: nat, deadline: nat, now: nat, signature: nat)
    | AllowedLend(sender: Address, from: Address, share: nat, pearlmitAllowed: nat)
    | AllowedBorrow(sender: Address, from: Address, share: nat, pearlmitAllowed: nat)

  function Allowances(s: LedgerState, asset: bool): map<(Address, Address), nat> {
    if asset then s.allowance else s.allowanceBorrow
  }

  function SetAllowance(s: LedgerState, asset: bool, owner: Address, spender: Address, value: nat): LedgerState {
    if asset then s.(allowance := s.allowance[(owner, spender) := value])
    else s.(allowanceBorrow := s.allowanceBorrow[(owner, spender) := value])
  }

  /** Both transfers between different accounts. */
  function Move(s: LedgerState, from: Address, to: Address, amount: nat): Option<LedgerState> {
    var _ :- Require(to != ZERO_ADDRESS && Lookup(s.balances, from) >= amount);
    var debited := s.balances[from := Lookup(s.balances, from) - amount];
    var _ :- Require(Lookup(debited, to) + amount <= MAX_UINT256);
    Some(s.(balances := debited[to := Lookup(debited, to) + amount]))
  }

  /** An infinite allowance is not decreased. */
  function Spend(s: LedgerState, asset: bool, owner: Address, spender: Address, amount: nat): Option<LedgerState> {
    var current := Lookup(Allowances(s, asset), (owner, spender));
    if current == MAX_UINT256 then Some(s) else
      var _ :- Require(current >= amount);
      Some(SetAllowance(s, asset, owner, spender, current - amount))
  }

  /** _allowedLend and _allowedBorrow: what Pearlmit covers is not taken from the market's allowance. */
  function CheckAllowed(s: LedgerState, asset: bool, sender: Address, from: Address, share: nat, pearlmitAllowed: nat)
    : Option<LedgerState>
  {
    if from == sender then Some(s) else
      var _ :- Require(share != 0);
      var _ :- Require(Lookup(Allowances(s, asset), (from, sender)) >= share || pearlmitAllowed >= share);
      if pearlmitAllowed >= share then Some(s) else Spend(s, asset, from, sender, share)
  }

  function PermitDigest(s: LedgerState, op: Op): Digest
    requires op.Permit?
  {
    Digest(op.asset, op.owner, op.spender, op.value, Lookup(s.nonces, op.owner), op.deadline)
  }

  function UsePermit(recover: Recovery, s: LedgerState, op: Op): Option<LedgerState>
    requires op.Permit?
  {
    var _ :- Require(op.now <= op.deadline && Lookup(s.nonces, op.owner) < MAX_UINT256);
    var signer := recover(PermitDigest(s, op), op.signature);
    var _ :- Require(signer != ZERO_ADDRESS && signer == op.owner);
    var s := s.(nonces := s.nonces[op.owner := Lookup(s.nonces, op.owner) + 1]);
    Some(SetAllowance(s, op.asset, op.owner, op.spender, op.value))
  }

  /** One call; None is a revert. */
  function Apply(recover: Recovery, s: LedgerState, op: Op): Option<LedgerState> {
    match op
    case Transfer(sender, to, amount) =>
      if amount == 0 && sender != to then Some(s) else
        var _ :- Require(Lookup(s.balances, sender) >= amount);
        if sender == to then Some(s) else Move(s, sender, to, amount)
    case TransferFrom(sender, from, to, amount) =>
      if amount == 0 then Some(s) else
        var _ :- Require(Lookup(s.balances, from) >= amount);
        if from == to then Some(s) else
          var s :- Spend(s, true, from, sender, amount);
          Move(s, from, to, amount)
    case Approve(sender, spender, amount) => Some(SetAllowance(s, true, sender, spender, amount))
    case ApproveBorrow(sender, spender, amount) => Some(SetAllowance(s, false, sender, spender, amount))
    case Permit(_, _, _, _, _, _, _) => UsePermit(recover, s, op)
    case AllowedLend(sender, from, share, pearlmitAllowed) =>
      CheckAllowed(s, true, sender, from, share, pearlmitAllowed)
    case AllowedBorrow(sender, from, share, pearlmitAllowed) =>
      CheckAllowed(s, false, sender, from, share, pearlmitAllowed)
  }

  /** The contract. Methods return false for a revert, which leaves the storage as it was. */
  class MarketToken {
    var balances: map<Address, nat>
    var allowance: map<(Address, Address), nat>
    var allowanceBorrow: map<(Address, Address), nat>
    var nonces: map<Address, nat>

    function State(): LedgerState
      reads this
    {
      LedgerState(balances, allowance, allowanceBorrow, nonces)
    }

    constructor ()
      ensures State() == LedgerState(map[], map[], map[], map[])
    {
      balances, allowance, allowanceBorrow, nonces := map[], map[], map[], map[];
    }

    method TransferCall(recover: Recovery, sender: Address, to: Address, amount: nat) returns (ok: bool)
      modifies this
      ensures var r := Apply(recover, old(State()), Transfer(sender, to, amount));
              ok == r.Some? && State() == r.GetOr(old(State()))
    {
      if amount != 0 || sender == to {
        var srcBalance := Lookup(balances, sender);
        if srcBalance < amount { return false; }
        if sender != to {
          if to == ZERO_ADDRESS { return false; }
          if Lookup(balances, to) + amount > MAX_UINT256 { return false; }
          balances := balances[sender := srcBalance - amount];
          balances := balances[to := Lookup(balances, to) + amount];
        }
      }
      return true;
    }

    method TransferFromCall(recover: Recovery, sender: Address, from: Address, to: Address, amount: nat)
      returns (ok: bool)
      modifies this
      ensures var r := Apply(recover, old(State()), TransferFrom(sender, from, to, amount));
              ok == r.Some? && State() == r.GetOr(old(State()))
    {
      if amount != 0 {
        var srcBalance := Lookup(balances, from);
        if srcBalance < amount { return false; }
        if from != to {
          var spenderAllowance := Lookup(allowance, (from, sender));
          if spenderAllowance != MAX_UINT256 && spenderAllowance < amount { return false; }
          if to == ZERO_ADDRESS { return false; }
          if Lookup(balances, to) + amount > MAX_UINT256 { return false; }
          if spenderAllowance != MAX_UINT256 {
            allowance := allowance[(from, sender) := spenderAllowance - amount];
          }
          balances := balances[from := srcBalance - amount];
          balances := balances[to := Lookup(balances, to) + amount];
        }
      }
      return true;
    }

    method SetApproval(asset: bool, owner: Address, spender: Address, value: nat)
      modifies this
      ensures State() == SetAllowance(old(State()), asset, owner, spender, value)
    {
      if asset {
        allowance := allowance[(owner, spender) := value];
      } else {
        allowanceBorrow := allowanceBorrow[(owner, spender) := value];
      }
    }

    method ApproveCall(recover: Recovery, sender: Address, spender: Address, amount: nat)
      modifies this
      ensures Apply(recover, old(State()), Approve(sender, spender, amount)).Some?
      ensures State() == Apply(recover, old(State()), Approve(sender, spender, amount)).value
    {
      SetApproval(true, sender, spender, amount);
    }

    method ApproveBorrowCall(recover: Recovery, sender: Address, spender: Address, amount: nat)
      modifies this
      ensures Apply(recover, old(State()), ApproveBorrow(sender, spender, amount)).Some?
      ensures State() == Apply(recover, old(State()), ApproveBorrow(sender, spender, amount)).value
    {
      SetApproval(false, sender, spender, amount);
    }

    method PermitCall(recover: Recovery, asset: bool, owner: Address, spender: Address, value: nat,
                      deadline: nat, now: nat, signature: nat) returns (ok: bool)
      modifies this
      ensures var r := Apply(recover, old(State()), Permit(asset, owner, spender, value, deadline, now, signature));
              ok == r.Some? && State() == r.GetOr(old(State()))
    {
      if now > deadline { return false; }
      var current := Lookup(nonces, owner);
      if current >= MAX_UINT256 { return false; }
      var before := nonces;
      nonces := nonces[owner := current + 1];
      var signer := recover(Digest(asset, owner, spender, value, current, deadline), signature);
      if signer == ZERO_ADDRESS || signer != owner {
        nonces := before;
        return false;
      }
      SetApproval(asset, owner, spender, value);
      return true;
    }

    method SpendIfNotCovered(asset: bool, sender: Address, from: Address, share: nat, pearlmitAllowed: nat)
      returns (ok: bool)
      modifies this
      ensures var r := CheckAllowed(old(State()), asset, sender, from, share, pearlmitAllowed);
              ok == r.Some? && State() == r.GetOr(old(State()))
    {
      if from != sender {
        if share == 0 { return false; }
        var current := Lookup(Allowances(State(), asset), (from, sender));
        if !(current >= share || pearlmitAllowed >= share) { return false; }
        if pearlmitAllowed >= share { return true; }
        if current != MAX_UINT256 {
          SetApproval(asset, from, sender, current - share);
        }
      }
      return true;
    }

    method AllowedLendCall(recover: Recovery, sender: Address, from: Address, share: nat,
                           whitelisted: bool, pearlmit: nat) returns (ok: bool)
      modifies this
      ensures var covered := if whitelisted then pearlmit else 0;
              var r := Apply(recover, old(State()), AllowedLend(sender, from, share, covered));
              ok == r.Some? && State() == r.GetOr(old(State()))
    {
      ok := SpendIfNotCovered(true, sender, from, share, if whitelisted then pearlmit else 0);
    }

    method AllowedBorrowCall(recover: Recovery, sender: Address, from: Address, share: nat,
                             whitelisted: bool, pearlmit: nat) returns (ok: bool)
      modifies this
      ensures var covered := if whitelisted then pearlmit else 0;
              var r := Apply(recover, old(State()), AllowedBorrow(sender, from, share, covered));
              ok == r.Some? && State() == r.GetOr(old(State()))
    {
      ok := SpendIfNotCovered(false, sender, from, share, if whitelisted then pearlmit else 0);
    }
  }
}
