/** What each call of the market's token does exactly, and what every run keeps. */
module LedgerProperties {
  import opened Wrappers
  import opened Arithmetic
  import opened Primitives
  import opened Sums
  import opened MarketLedger

  /** A run; a call that reverts has no effect. */
  function Run(recover: Recovery, s: LedgerState, ops: seq<Op>): LedgerState
    decreases ops
  {
    if ops == [] then s else
      var before := Run(recover, s, ops[..|ops| - 1]);
      Apply(recover, before, ops[|ops| - 1]).GetOr(before)
  }

  // ---------- Each call ----------

  function BalanceOf(s: LedgerState, a: Address): nat {
    Lookup(s.balances, a)
  }

  function Remaining(s: LedgerState, asset: bool, owner: Address, spender: Address): nat {
    Lookup(Allowances(s, asset), (owner, spender))
  }

  /** What an allowance is after it covered an amount. */
  function After(allowance: nat, amount: nat): nat
    requires Covers(allowance, amount)
  {
    if allowance == MAX_UINT256 then allowance else allowance - amount
  }

  /** The whole of what a transfer of an amount does to the balances. */
  ghost predicate Moves(s: LedgerState, t: LedgerState, from: Address, to: Address, amount: nat) {
    forall a: Address ::
      BalanceOf(t, a) == BalanceOf(s, a) - (if a == from then amount else 0) + (if a == to then amount else 0)
  }

  /** Every allowance of either kind but one, and every nonce, is as it was. */
  ghost predicate OnlyAllowance(s: LedgerState, t: LedgerState, asset: bool, owner: Address, spender: Address) {
    && t.nonces == s.nonces
    && forall k: bool, o: Address, p: Address | (k, o, p) != (asset, owner, spender) ::
         Remaining(t, k, o, p) == Remaining(s, k, o, p)
  }

  /** A transfer goes through exactly when the sender holds the amount and the receiver can take it. */
  lemma TransferExactly(recover: Recovery, s: LedgerState, sender: Address, to: Address, amount: nat)
    ensures Apply(recover, s, Transfer(sender, to, amount)).Some?
            <==> || (amount == 0 && sender != to)
                 || (BalanceOf(s, sender) >= amount
                     && (sender == to || (to != ZERO_ADDRESS && BalanceOf(s, to) + amount <= MAX_UINT256)))
    ensures Apply(recover, s, Transfer(sender, to, amount)).Some? ==>
              var t := Apply(recover, s, Transfer(sender, to, amount)).value;
              && Moves(s, t, sender, to, amount)
              && t == s.(balances := t.balances)
  {
  }

  /**
   * A transfer by a spender goes through exactly when, besides, the owner's allowance of that spender
   * covers the amount, and it uses exactly that allowance up by the amount.
   */
  lemma TransferFromExactly(recover: Recovery, s: LedgerState, sender: Address, from: Address, to: Address, amount: nat)
    ensures Apply(recover, s, TransferFrom(sender, from, to, amount)).Some?
            <==> || amount == 0
                 || (BalanceOf(s, from) >= amount
                     && (from == to
                         || (Covers(Remaining(s, true, from, sender), amount)
                             && to != ZERO_ADDRESS && BalanceOf(s, to) + amount <= MAX_UINT256)))
    ensures Apply(recover, s, TransferFrom(sender, from, to, amount)).Some? ==>
              var t := Apply(recover, s, TransferFrom(sender, from, to, amount)).value;
              && Moves(s, t, from, to, amount)
              && OnlyAllowance(s, t, true, from, sender)
              && Remaining(t, true, from, sender)
                 == if amount == 0 || from == to then Remaining(s, true, from, sender)
                    else After(Remaining(s, true, from, sender), amount)
  {
    if amount != 0 && from != to && Spend(s, true, from, sender, amount).Some? {
      var spent := Spend(s, true, from, sender, amount).value;
      SpendExactly(s, from, sender, amount);
      MoveExactly(spent, from, to, amount);
    }
  }

  lemma SpendExactly(s: LedgerState, owner: Address, spender: Address, amount: nat)
    requires Spend(s, true, owner, spender, amount).Some?
    ensures var t := Spend(s, true, owner, spender, amount).value;
            && t == s.(allowance := t.allowance)
            && OnlyAllowance(s, t, true, owner, spender)
            && Covers(Remaining(s, true, owner, spender), amount)
            && Remaining(t, true, owner, spender) == After(Remaining(s, true, owner, spender), amount)
  {
  }

  lemma MoveExactly(s: LedgerState, from: Address, to: Address, amount: nat)
    requires from != to
    ensures Move(s, from, to, amount).Some?
            <==> BalanceOf(s, from) >= amount && to != ZERO_ADDRESS && BalanceOf(s, to) + amount <= MAX_UINT256
    ensures Move(s, from, to, amount).Some? ==>
              var t := Move(s, from, to, amount).value;
              Moves(s, t, from, to, amount) && t == s.(balances := t.balances)
  {
  }

  /** An approval of either kind always goes through and sets exactly its own allowance. */
  lemma ApproveExactly(recover: Recovery, s: LedgerState, asset: bool, sender: Address, spender: Address, amount: nat)
    ensures var op := if asset then Approve(sender, spender, amount) else ApproveBorrow(sender, spender, amount);
            && Apply(recover, s, op).Some?
            && Apply(recover, s, op).value.balances == s.balances
            && OnlyAllowance(s, Apply(recover, s, op).value, asset, sender, spender)
            && Remaining(Apply(recover, s, op).value, asset, sender, spender) == amount
  {
  }

  /**
   * A permit goes through exactly when it is in time and its signature is the owner's on a digest with
   * the owner's current nonce; it sets the allowance of its own kind and moves that nonce on by one.
   */
  lemma PermitExactly(recover: Recovery, s: LedgerState, op: Op)
    requires op.Permit?
    ensures Apply(recover, s, op).Some?
            <==> && op.now <= op.deadline
                 && Lookup(s.nonces, op.owner) < MAX_UINT256
                 && op.owner != ZERO_ADDRESS
                 && recover(Digest(op.asset, op.owner, op.spender, op.value, Lookup(s.nonces, op.owner), op.deadline),
                            op.signature) == op.owner
    ensures Apply(recover, s, op).Some? ==>
              var t := Apply(recover, s, op).value;
              && t.balances == s.balances
              && OnlyAllowance(s, t.(nonces := s.nonces), op.asset, op.owner, op.spender)
              && Remaining(t, op.asset, op.owner, op.spender) == op.value
              && (forall o: Address :: Lookup(t.nonces, o) == Lookup(s.nonces, o) + (if o == op.owner then 1 else 0))
  {
  }

  /**
   * A caller other than the owner passes exactly with a nonzero share that Pearlmit or the allowance of
   * that kind covers, and the allowance is used up by the share exactly when Pearlmit does not cover it.
   */
  lemma CheckExactly(recover: Recovery, s: LedgerState, asset: bool, sender: Address, from: Address, share: nat,
                     pearlmit: nat)
    requires Remaining(s, asset, from, sender) <= MAX_UINT256 && share <= MAX_UINT256
    ensures var op := if asset then AllowedLend(sender, from, share, pearlmit)
                      else AllowedBorrow(sender, from, share, pearlmit);
            && (Apply(recover, s, op).Some?
                <==> || from == sender
                     || (share != 0 && (pearlmit >= share || Covers(Remaining(s, asset, from, sender), share))))
            && (Apply(recover, s, op).Some? ==>
                var t := Apply(recover, s, op).value;
                && t.balances == s.balances
                && OnlyAllowance(s, t, asset, from, sender)
                && Remaining(t, asset, from, sender)
                   == if from == sender || pearlmit >= share then Remaining(s, asset, from, sender)
                      else After(Remaining(s, asset, from, sender), share))
  {
  }

  // ---------- Conservation ----------

  lemma MoveConserves(s: LedgerState, from: Address, to: Address, amount: nat)
    requires Move(s, from, to, amount).Some?
    ensures SumMap(Move(s, from, to, amount).value.balances) == SumMap(s.balances)
  {
    var debited := s.balances[from := Lookup(s.balances, from) - amount];
    SumUpdate(s.balances, from, Lookup(s.balances, from) - amount);
    SumUpdate(debited, to, Lookup(debited, to) + amount);
  }

  lemma ApplyConserves(recover: Recovery, s: LedgerState, op: Op)
    requires Apply(recover, s, op).Some?
    ensures SumMap(Apply(recover, s, op).value.balances) == SumMap(s.balances)
  {
    match op
    case Transfer(sender, to, amount) =>
      if sender != to && amount != 0 {
        MoveConserves(s, sender, to, amount);
      }
    case TransferFrom(sender, from, to, amount) =>
      if from != to && amount != 0 {
        MoveConserves(Spend(s, true, from, sender, amount).value, from, to, amount);
      }
    case _ =>
  }

  /** No run creates or destroys balance. */
  lemma {:induction false} RunConserves(recover: Recovery, s: LedgerState, ops: seq<Op>)
    ensures SumMap(Run(recover, s, ops).balances) == SumMap(s.balances)
    decreases ops
  {
    if ops != [] {
      var front, last := ops[..|ops| - 1], ops[|ops| - 1];
      RunConserves(recover, s, front);
      if Apply(recover, Run(recover, s, front), last).Some? {
        ApplyConserves(recover, Run(recover, s, front), last);
      }
    }
  }

  // ---------- Spending limits ----------

  /** The allowance of the given kind that a call grants the spender, if that owner approves that spender by it. */
  function Granted(op: Op, asset: bool, owner: Address, spender: Address): Option<nat> {
    match op
    case Approve(o, p, value) => if asset && (o, p) == (owner, spender) then Some(value) else None
    case ApproveBorrow(o, p, value) => if !asset && (o, p) == (owner, spender) then Some(value) else None
    case Permit(a, o, p, value, _, _, _) => if (a, o, p) == (asset, owner, spender) then Some(value) else None
    case _ => None
  }

  /**
   * What a spender takes from an owner by a call that turned s into t: the balance the owner lost to a
   * transfer by the spender, or the share the spender acted on that Pearlmit did not cover.
   */
  function Taken(s: LedgerState, t: LedgerState, op: Op, asset: bool, owner: Address, spender: Address): int {
    match op
    case TransferFrom(p, o, _, _) =>
      if asset && (o, p) == (owner, spender) then BalanceOf(s, owner) - BalanceOf(t, owner) else 0
    case AllowedLend(p, o, share, pearlmit) =>
      if asset && (o, p) == (owner, spender) && owner != spender && pearlmit < share then share else 0
    case AllowedBorrow(p, o, share, pearlmit) =>
      if !asset && (o, p) == (owner, spender) && owner != spender && pearlmit < share then share else 0
    case _ => 0
  }

  /** The spender's last allowance in a run, and all that was taken since. */
  function Account(recover: Recovery, s: LedgerState, ops: seq<Op>, asset: bool, owner: Address, spender: Address)
    : (nat, int)
    decreases ops
  {
    if ops == [] then (Remaining(s, asset, owner, spender), 0) else
      var front, last := ops[..|ops| - 1], ops[|ops| - 1];
      var (budget, taken) := Account(recover, s, front, asset, owner, spender);
      var before := Run(recover, s, front);
      match Apply(recover, before, last)
      case None => (budget, taken)
      case Some(after) =>
        match Granted(last, asset, owner, spender)
        case Some(value) => (value, 0)
        case None => (budget, taken + Taken(before, after, last, asset, owner, spender))
  }

  /** Values are uint256, so a finite allowance never turns into the infinite one. */
  predicate InWidth(op: Op) {
    match op
    case Approve(_, _, amount) => amount <= MAX_UINT256
    case ApproveBorrow(_, _, amount) => amount <= MAX_UINT256
    case Permit(_, _, _, value, _, _, _) => value <= MAX_UINT256
    case TransferFrom(_, _, _, amount) => amount <= MAX_UINT256
    case AllowedLend(_, _, share, _) => share <= MAX_UINT256
    case AllowedBorrow(_, _, share, _) => share <= MAX_UINT256
    case _ => true
  }

  /** What one call does to one allowance, told by who approved and by what was taken. */
  lemma ApplyFollowsAccount(recover: Recovery, s: LedgerState, op: Op, asset: bool, owner: Address, spender: Address)
    requires Apply(recover, s, op).Some? && InWidth(op) && Remaining(s, asset, owner, spender) <= MAX_UINT256
    ensures var t := Apply(recover, s, op).value;
            var before, after := Remaining(s, asset, owner, spender), Remaining(t, asset, owner, spender);
            match Granted(op, asset, owner, spender)
            case Some(value) => after == value <= MAX_UINT256
            case None =>
              && Taken(s, t, op, asset, owner, spender) >= 0
              && after == if before == MAX_UINT256 then before else before - Taken(s, t, op, asset, owner, spender)
  {
    match op
    case Transfer(sender, to, amount) => TransferExactly(recover, s, sender, to, amount);
    case TransferFrom(sender, from, to, amount) => TransferFromExactly(recover, s, sender, from, to, amount);
    case Approve(sender, p, amount) => ApproveExactly(recover, s, true, sender, p, amount);
    case ApproveBorrow(sender, p, amount) => ApproveExactly(recover, s, false, sender, p, amount);
    case Permit(_, _, _, _, _, _, _) => PermitExactly(recover, s, op);
    case AllowedLend(sender, from, share, pearlmit) => CheckFollows(recover, s, true, sender, from, share, pearlmit,
                                                                   asset, owner, spender);
    case AllowedBorrow(sender, from, share, pearlmit) => CheckFollows(recover, s, false, sender, from, share, pearlmit,
                                                                     asset, owner, spender);
  }

  lemma CheckFollows(recover: Recovery, s: LedgerState, kind: bool, sender: Address, from: Address, share: nat,
                     pearlmit: nat, asset: bool, owner: Address, spender: Address)
    requires CheckAllowed(s, kind, sender, from, share, pearlmit).Some?
    ensures var t := CheckAllowed(s, kind, sender, from, share, pearlmit).value;
            var before, after := Remaining(s, asset, owner, spender), Remaining(t, asset, owner, spender);
            after == if (kind, from, sender) == (asset, owner, spender) && owner != spender && pearlmit < share
                        && before != MAX_UINT256
                     then before - share else before
  {
  }

  /**
   * Over every run, for every owner, spender and kind of allowance: what the spender took from the owner
   * since the last approval, and what is left of it, add up to that approval, unless it is infinite.
   */
  lemma {:induction false} RunWithinBudget(recover: Recovery, s: LedgerState, ops: seq<Op>,
                                           asset: bool, owner: Address, spender: Address)
    requires Remaining(s, asset, owner, spender) <= MAX_UINT256
    requires forall op | op in ops :: InWidth(op)
    ensures var (budget, taken) := Account(recover, s, ops, asset, owner, spender);
            var left := Remaining(Run(recover, s, ops), asset, owner, spender);
            && 0 <= taken && budget <= MAX_UINT256
            && if budget == MAX_UINT256 then left == MAX_UINT256 else left + taken == budget
    decreases ops
  {
    if ops != [] {
      var front, last := ops[..|ops| - 1], ops[|ops| - 1];
      RunWithinBudget(recover, s, front, asset, owner, spender);
      var before := Run(recover, s, front);
      if Apply(recover, before, last).Some? {
        ApplyFollowsAccount(recover, before, last, asset, owner, spender);
      }
    }
  }

  // ---------- Permits ----------

  /** The digests a run's permits were authorised by, in order. */
  function Authorised(recover: Recovery, s: LedgerState, ops: seq<Op>): seq<Digest>
    decreases ops
  {
    if ops == [] then [] else
      var front, last := ops[..|ops| - 1], ops[|ops| - 1];
      var before := Run(recover, s, front);
      Authorised(recover, s, front)
      + (if last.Permit? && Apply(recover, before, last).Some? then [PermitDigest(before, last)] else [])
  }

  /** Below the stored nonces, and increasing for each owner across both kinds of permit. */
  predicate NoncesUsed(s: LedgerState, used: seq<Digest>) {
    && (forall i | 0 <= i < |used| :: used[i].nonce < Lookup(s.nonces, used[i].owner))
    && (forall i, j | 0 <= i < j < |used| && used[i].owner == used[j].owner :: used[i].nonce < used[j].nonce)
  }

  /** No digest is authorised twice in any run, and no two of one owner share a nonce. */
  lemma {:induction false} PermitsAuthoriseOnce(recover: Recovery, s: LedgerState, ops: seq<Op>)
    ensures var used := Authorised(recover, s, ops);
            && NoncesUsed(Run(recover, s, ops), used)
            && (forall i, j | 0 <= i < j < |used| :: used[i] != used[j])
    decreases ops
  {
    if ops != [] {
      var front, last := ops[..|ops| - 1], ops[|ops| - 1];
      PermitsAuthoriseOnce(recover, s, front);
      var before := Run(recover, s, front);
      if Apply(recover, before, last).Some? {
        if last.Permit? {
          PermitExactly(recover, before, last);
        } else {
          OnlyPermitsUseNonces(recover, before, last);
        }
      }
    }
  }

  lemma OnlyPermitsUseNonces(recover: Recovery, s: LedgerState, op: Op)
    requires !op.Permit? && Apply(recover, s, op).Some?
    ensures Apply(recover, s, op).value.nonces == s.nonces
  {
  }

  /** A signature that recovers to its owner on one digest only cannot be used again after that digest was. */
  lemma SignatureCannotBeReplayed(recover: Recovery, s: LedgerState, ops: seq<Op>, op: Op, used: Digest)
    requires op.Permit? && used.owner == op.owner
    requires forall d: Digest | recover(d, op.signature) == op.owner :: d == used
    requires used in Authorised(recover, s, ops)
    ensures Apply(recover, Run(recover, s, ops), op) == None
  {
    PermitsAuthoriseOnce(recover, s, ops);
    PermitExactly(recover, Run(recover, s, ops), op);
  }
}
