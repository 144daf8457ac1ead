/** When each plain call on USDO and on the flash loan helper goes through, and everything it changes. */
module TokenCalls {
  import opened Wrappers
  import opened Arithmetic
  import opened Primitives
  import opened Usdo
  import opened FlashLender

  /** The world after a call on USDO that succeeds: the helper and the loans are as they were. */
  predicate OnlyUsdo(w: World, r: (World, Effects), done: Effects) {
    r.0 == w.(usdo := r.0.usdo) && r.1 == done
  }

  /** The whole of what a transfer of an amount does to the balances. */
  ghost predicate Moved(u: UsdoState, v: UsdoState, from: Address, to: Address, amount: nat) {
    forall a: Address ::
      Balance(v, a) == Balance(u, a) - (if a == from then amount else 0) + (if a == to then amount else 0)
  }

  /** One account holds that much more in v than in u, and every other one the same. */
  ghost predicate Credited(u: UsdoState, v: UsdoState, account: Address, amount: nat) {
    forall a: Address :: Balance(v, a) == Balance(u, a) + (if a == account then amount else 0)
  }

  /** One allowance has the given value, and every other one the value it had. */
  ghost predicate AllowanceSet(before: map<(Address, Address), nat>, after: map<(Address, Address), nat>,
                               owner: Address, spender: Address, value: nat) {
    forall o: Address, s: Address ::
      Lookup(after, (o, s)) == if (o, s) == (owner, spender) then value else Lookup(before, (o, s))
  }

  // ---------- Anyone ----------

  lemma TransferExactly(env: Env, w: World, sender: Address, to: Address, amount: nat)
    ensures var r := Apply(env, w, sender, Transfer(to, amount));
            && (r.Some? <==> sender != ZERO_ADDRESS && to != ZERO_ADDRESS && Balance(w.usdo, sender) >= amount)
            && (r.Some? ==>
                && OnlyUsdo(w, r.value, NOTHING)
                && r.value.0.usdo == w.usdo.(balances := r.value.0.usdo.balances)
                && Moved(w.usdo, r.value.0.usdo, sender, to, amount))
  {
  }

  /** A transfer by a spender uses a finite allowance up by the amount; an infinite one stays. */
  lemma TransferFromExactly(env: Env, w: World, sender: Address, from: Address, to: Address, amount: nat)
    ensures var r, allowance := Apply(env, w, sender, TransferFromCall(from, to, amount)),
                                Lookup(w.usdo.allowances, (from, sender));
            && (r.Some? <==> && from != ZERO_ADDRESS && to != ZERO_ADDRESS && Balance(w.usdo, from) >= amount
                             && (allowance == MAX_UINT256 || (allowance >= amount && sender != ZERO_ADDRESS)))
            && (r.Some? ==>
                && OnlyUsdo(w, r.value, NOTHING)
                && r.value.0.usdo == w.usdo.(balances := r.value.0.usdo.balances,
                                             allowances := r.value.0.usdo.allowances)
                && Moved(w.usdo, r.value.0.usdo, from, to, amount)
                && AllowanceSet(w.usdo.allowances, r.value.0.usdo.allowances, from, sender,
                                if allowance == MAX_UINT256 then allowance else allowance - amount))
  {
    var spent := SpendAllowance(w.usdo, from, sender, amount);
    if spent.Some? {
      TransferExactly(env, w.(usdo := spent.value), from, to, amount);
    }
  }

  lemma ApproveExactly(env: Env, w: World, sender: Address, spender: Address, amount: nat)
    ensures var r := Apply(env, w, sender, Approve(spender, amount));
            && (r.Some? <==> sender != ZERO_ADDRESS && spender != ZERO_ADDRESS)
            && (r.Some? ==>
                && OnlyUsdo(w, r.value, NOTHING)
                && r.value.0.usdo == w.usdo.(allowances := r.value.0.usdo.allowances)
                && AllowanceSet(w.usdo.allowances, r.value.0.usdo.allowances, sender, spender, amount))
  {
  }

  lemma LenderApproveExactly(env: Env, w: World, sender: Address, spender: Address, amount: nat)
    ensures var r := Apply(env, w, sender, LenderApprove(spender, amount));
            && (r.Some? <==> sender != ZERO_ADDRESS && spender != ZERO_ADDRESS)
            && (r.Some? ==>
                && r.value.1 == NOTHING
                && r.value.0 == w.(lender := w.lender.(allowances := r.value.0.lender.allowances))
                && AllowanceSet(w.lender.allowances, r.value.0.lender.allowances, sender, spender, amount))
  {
  }

  // ---------- Role holders ----------

  /** While the token runs, a minter mints whatever the supply has room for. */
  lemma MintExactly(env: Env, w: World, sender: Address, to: Address, amount: nat)
    ensures var r := Apply(env, w, sender, MintRole(to, amount));
            && (r.Some? <==> && !w.usdo.paused && sender in w.usdo.minters
                             && to != ZERO_ADDRESS && w.usdo.totalSupply + amount <= MAX_UINT256)
            && (r.Some? ==>
                && OnlyUsdo(w, r.value, NOTHING.(minted := amount))
                && r.value.0.usdo == w.usdo.(totalSupply := w.usdo.totalSupply + amount,
                                             balances := r.value.0.usdo.balances)
                && Credited(w.usdo, r.value.0.usdo, to, amount))
  {
  }

  /** While the token runs, a burner burns what any account holds. */
  lemma BurnExactly(env: Env, w: World, sender: Address, from: Address, amount: nat)
    ensures var r := Apply(env, w, sender, BurnRole(from, amount));
            && (r.Some? <==> && !w.usdo.paused && sender in w.usdo.burners
                             && from != ZERO_ADDRESS && amount <= Min(Balance(w.usdo, from), w.usdo.totalSupply))
            && (r.Some? ==>
                && OnlyUsdo(w, r.value, NOTHING.(burned := amount))
                && r.value.0.usdo == w.usdo.(totalSupply := w.usdo.totalSupply - amount,
                                             balances := r.value.0.usdo.balances)
                && Credited(r.value.0.usdo, w.usdo, from, amount))
  {
  }

  /** Only the registered helper adds fees. */
  lemma AddFeeExactly(env: Env, w: World, sender: Address, fee: nat)
    ensures var r := Apply(env, w, sender, AddFee(fee));
            && (r.Some? <==> sender == w.usdo.flashLoanHelper && w.usdo.fees + fee <= MAX_UINT256)
            && (r.Some? ==>
                OnlyUsdo(w, r.value, NOTHING.(registered := fee))
                && r.value.0.usdo == w.usdo.(fees := w.usdo.fees + fee))
  {
  }

  // ---------- Owners ----------

  /** Extraction takes what there is: fees beyond the token's own balance stay registered. */
  lemma ExtractExactly(env: Env, w: World, sender: Address)
    requires env.Valid()
    ensures var r, paid := Apply(env, w, sender, Extract), Min(w.usdo.fees, Balance(w.usdo, env.usdo));
            && (r.Some? <==> sender == env.usdoOwner && (w.usdo.fees == 0 || sender != ZERO_ADDRESS))
            && (r.Some? ==>
                && OnlyUsdo(w, r.value, NOTHING.(extracted := paid))
                && r.value.0.usdo == w.usdo.(fees := w.usdo.fees - paid, balances := r.value.0.usdo.balances)
                && Moved(w.usdo, r.value.0.usdo, env.usdo, sender, paid))
  {
  }

  /** The owner pauses a running token and resumes a paused one, and each of those only once. */
  lemma PauseExactly(env: Env, w: World, sender: Address, pauseState: bool)
    ensures var r := Apply(env, w, sender, Pause(pauseState));
            && (r.Some? <==> sender == env.usdoOwner && w.usdo.paused == !pauseState)
            && (r.Some? ==> r.value == (w.(usdo := w.usdo.(paused := !w.usdo.paused)), NOTHING))
  {
  }

  lemma SetHelperExactly(env: Env, w: World, sender: Address, helper: Address)
    ensures Apply(env, w, sender, SetHelper(helper))
            == if sender == env.usdoOwner then Some((w.(usdo := w.usdo.(flashLoanHelper := helper)), NOTHING)) else None
  {
  }

  /** A role is given to, or taken from, exactly the named account. */
  predicate RoleSet(before: set<Address>, after: set<Address>, account: Address, status: bool) {
    before - {account} == after - {account} && (account in after <==> status)
  }

  lemma SetRolesExactly(env: Env, w: World, sender: Address, account: Address, status: bool)
    ensures var r := Apply(env, w, sender, SetMinter(account, status));
            && (r.Some? <==> sender == env.usdoOwner)
            && (r.Some? ==>
                && OnlyUsdo(w, r.value, NOTHING)
                && r.value.0.usdo == w.usdo.(minters := r.value.0.usdo.minters)
                && RoleSet(w.usdo.minters, r.value.0.usdo.minters, account, status))
    ensures var r := Apply(env, w, sender, SetBurner(account, status));
            && (r.Some? <==> sender == env.usdoOwner)
            && (r.Some? ==>
                && OnlyUsdo(w, r.value, NOTHING)
                && r.value.0.usdo == w.usdo.(burners := r.value.0.usdo.burners)
                && RoleSet(w.usdo.burners, r.value.0.usdo.burners, account, status))
  {
  }

  /** The helper's owner sets any cap, and any fee below the whole amount. */
  lemma SetLoanTermsExactly(env: Env, w: World, sender: Address, value: nat)
    ensures var r := Apply(env, w, sender, SetMaxFlashMint(value));
            && (r.Some? <==> sender == env.lenderOwner)
            && (r.Some? ==> r.value == (w.(lender := w.lender.(maxFlashMint := value)), NOTHING))
    ensures var r := Apply(env, w, sender, SetFlashMintFee(value));
            && (r.Some? <==> sender == env.lenderOwner && value < FLASH_MINT_FEE_PRECISION)
            && (r.Some? ==> r.value == (w.(lender := w.lender.(flashMintFee := value)), NOTHING))
  {
  }
}
