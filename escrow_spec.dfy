/**
 * The escrow record as a value, and each escrow instruction as a step function
 * on it: the guards run in the order the handlers run them, and a failed
 * instruction leaves the record as it was (the transaction is rolled back).
 */
module EscrowSpec {
  import opened Types
  import opened State
  import Reward

  /** The amounts a successful redemption reports. */
  datatype RedeemReport = RedeemReport(tokensBurned: U64, rewardsRedeemed: U64, remainingEscrowAmount: U64)

  /**
   * What holds of every escrow record the instructions can produce: the pool
   * never exceeds the amount first locked, the wallet index names one of the
   * five wallets, and a closed escrow holds nothing.
   */
  predicate Invariant(e: EscrowRecord) {
    && e.remainingRewardAmount <= e.totalRewardAmount
    && e.escrowWalletIndex < WALLET_COUNT
    && (!e.isActive ==> e.remainingRewardAmount == 0)
  }

  /** The terms fixed when the escrow is created, which no instruction changes afterwards. */
  predicate SameTerms(e: EscrowRecord, f: EscrowRecord) {
    && e.mint == f.mint
    && e.minter == f.minter
    && e.rewardAsset == f.rewardAsset
    && e.totalRewardAmount == f.totalRewardAmount
    && e.totalTokenSupply == f.totalTokenSupply
    && e.createdAt == f.createdAt
    && e.expiresAt == f.expiresAt
  }

  /**
   * `initialize_escrow`: a fresh, active record whose pool is the whole reward.
   * The expiry is stored as given, without any check against `now`.
   */
  function InitializeEscrow(mint: Pubkey, minter: Pubkey, asset: RewardAsset, totalRewardAmount: U64,
                            totalTokenSupply: U64, expiresAt: I64, now: I64): (e: EscrowRecord)
    ensures Invariant(e) && e.isActive
    ensures e.remainingRewardAmount == e.totalRewardAmount == totalRewardAmount
    ensures e.burnedTokenAmount == 0 && e.escrowWalletIndex == 0
    ensures e.createdAt == now && e.expiresAt == expiresAt
    ensures e.mint == mint && e.minter == minter && e.rewardAsset == asset && e.totalTokenSupply == totalTokenSupply
  {
    EscrowRecord(mint, minter, asset, totalRewardAmount, totalRewardAmount, totalTokenSupply,
                 0, 0, now, expiresAt, true)
  }

  /**
   * `lock_funds`: rejects a wallet index outside 0..4, then a reward amount above
   * the escrow's total; on success records the wallet index and nothing else.
   */
  function LockFunds(e: EscrowRecord, rewardAmount: U64, walletIndex: U8): (r: Result<EscrowRecord>)
    ensures r.Ok? <==> walletIndex < WALLET_COUNT && rewardAmount <= e.totalRewardAmount
    ensures walletIndex >= WALLET_COUNT ==> r == Err(InvalidEscrowWalletIndex)
    ensures walletIndex < WALLET_COUNT && rewardAmount > e.totalRewardAmount ==> r == Err(InsufficientFunds)
    ensures r.Ok? ==> SameTerms(e, r.value) && r.value.escrowWalletIndex == walletIndex
    ensures r.Ok? ==> r.value.(escrowWalletIndex := e.escrowWalletIndex) == e
  {
    if walletIndex >= WALLET_COUNT then Err(InvalidEscrowWalletIndex)
    else if rewardAmount > e.totalRewardAmount then Err(InsufficientFunds)
    else Ok(e.(escrowWalletIndex := walletIndex))
  }

  /** The guards of `redeem_rewards` that come before the reward is computed all pass. */
  predicate RedeemAllowed(e: EscrowRecord, burnAmount: U64, userBalance: U64, now: I64) {
    e.isActive && now < e.expiresAt && burnAmount <= userBalance
  }

  /**
   * `redeem_rewards`: rejects an inactive escrow, then an expired one, then a burn
   * above the caller's balance; computes the reward, rejects one above the pool
   * and a burned counter that would overflow; on success moves exactly the
   * reward out of the pool and adds exactly the burn to the burned counter.
   */
  function RedeemRewards(e: EscrowRecord, burnAmount: U64, userBalance: U64, now: I64)
    : (r: Result<(EscrowRecord, RedeemReport)>)
    ensures !e.isActive ==> r == Err(EscrowNotFound)
    ensures e.isActive && now >= e.expiresAt ==> r == Err(EscrowExpired)
    ensures e.isActive && now < e.expiresAt && burnAmount > userBalance ==> r == Err(InsufficientTokenBalance)
    ensures RedeemAllowed(e, burnAmount, userBalance, now) && e.totalTokenSupply == 0 ==>
      r == Err(RewardCalculationOverflow)
    ensures r.Ok? ==> RedeemAllowed(e, burnAmount, userBalance, now) && 0 < e.totalTokenSupply
    ensures r.Ok? ==>
      var (f, report) := r.value;
      && report.rewardsRedeemed == Reward.ComputeReward(burnAmount, e.remainingRewardAmount, e.totalTokenSupply).value
      && f.remainingRewardAmount + report.rewardsRedeemed == e.remainingRewardAmount
      && f.burnedTokenAmount == e.burnedTokenAmount + burnAmount
      && f == e.(remainingRewardAmount := f.remainingRewardAmount, burnedTokenAmount := f.burnedTokenAmount)
      && report.tokensBurned == burnAmount
      && report.remainingEscrowAmount == f.remainingRewardAmount
    ensures RedeemAllowed(e, burnAmount, userBalance, now) && 0 < e.totalTokenSupply ==>
      var reward := Reward.ComputeReward(burnAmount, e.remainingRewardAmount, e.totalTokenSupply).value;
      && (reward > e.remainingRewardAmount ==> r == Err(InsufficientFunds))
      && (reward <= e.remainingRewardAmount && e.burnedTokenAmount + burnAmount >= U64_LIMIT ==>
            r == Err(RewardCalculationOverflow))
      && (reward <= e.remainingRewardAmount && e.burnedTokenAmount + burnAmount < U64_LIMIT ==> r.Ok?)
  {
    if !e.isActive then Err(EscrowNotFound)
    else if now >= e.expiresAt then Err(EscrowExpired)
    else if burnAmount > userBalance then Err(InsufficientTokenBalance)
    else
      match Reward.ComputeReward(burnAmount, e.remainingRewardAmount, e.totalTokenSupply)
      case Err(err) => Err(err)
      case Ok(reward) =>
        if reward > e.remainingRewardAmount then Err(InsufficientFunds)
        else if e.burnedTokenAmount + burnAmount >= U64_LIMIT then Err(RewardCalculationOverflow)
        else
          var f := e.(burnedTokenAmount := e.burnedTokenAmount + burnAmount,
                      remainingRewardAmount := e.remainingRewardAmount - reward);
          Ok((f, RedeemReport(burnAmount, reward, f.remainingRewardAmount)))
  }

  /**
   * `claim_remaining_rewards`: rejects a call before the expiry, then a caller
   * other than the recorded minter; on success closes the escrow, empties the
   * pool and reports what the pool held. It does not look at `isActive`.
   */
  function ClaimRemainingRewards(e: EscrowRecord, caller: Pubkey, now: I64): (r: Result<(EscrowRecord, U64)>)
    ensures r.Ok? <==> now >= e.expiresAt && caller == e.minter
    ensures now < e.expiresAt ==> r == Err(EscrowNotExpired)
    ensures now >= e.expiresAt && caller != e.minter ==> r == Err(UnauthorizedMinter)
    ensures r.Ok? ==>
      var (f, claimed) := r.value;
      && claimed == e.remainingRewardAmount
      && !f.isActive && f.remainingRewardAmount == 0
      && f.(isActive := e.isActive, remainingRewardAmount := e.remainingRewardAmount) == e
  {
    if now < e.expiresAt then Err(EscrowNotExpired)
    else if e.minter != caller then Err(UnauthorizedMinter)
    else Ok((e.(isActive := false, remainingRewardAmount := 0), e.remainingRewardAmount))
  }

  /** A successful redemption keeps the invariant and the terms, and never grows the pool. */
  lemma RedeemPreservesInvariant(e: EscrowRecord, burnAmount: U64, userBalance: U64, now: I64)
    requires Invariant(e)
    requires RedeemRewards(e, burnAmount, userBalance, now).Ok?
    ensures var f := RedeemRewards(e, burnAmount, userBalance, now).value.0;
      Invariant(f) && SameTerms(e, f) && f.isActive && f.remainingRewardAmount <= e.remainingRewardAmount
  {
  }

  /**
   * A burn no larger than the declared supply never trips the pool check: once
   * the earlier guards pass and the burned counter has room, the redemption
   * succeeds and pays the floor of the burn's share of the remaining pool.
   */
  lemma RedeemWithinSupplyPaysShare(e: EscrowRecord, burnAmount: U64, userBalance: U64, now: I64)
    requires RedeemAllowed(e, burnAmount, userBalance, now)
    requires 0 < e.totalTokenSupply && burnAmount <= e.totalTokenSupply
    requires e.burnedTokenAmount + burnAmount < U64_LIMIT
    ensures RedeemRewards(e, burnAmount, userBalance, now).Ok?
    ensures var reward := RedeemRewards(e, burnAmount, userBalance, now).value.1.rewardsRedeemed;
      reward * e.totalTokenSupply <= burnAmount * e.remainingRewardAmount < (reward + 1) * e.totalTokenSupply
  {
    Reward.RewardIsProportionalShare(burnAmount, e.remainingRewardAmount, e.totalTokenSupply);
  }

  /**
   * Scenario: on an escrow untouched since its creation, a single redemption of
   * a tenth of the supply pays exactly a tenth of the reward.
   */
  lemma ProportionalFirstRedemption()
    ensures
      var e := InitializeEscrow(ZERO_KEY, ZERO_KEY, SOL, 10_000_000000, 1_000_000000, 100, 0);
      RedeemRewards(e, 100_000000, 100_000000, 50).Ok? &&
      RedeemRewards(e, 100_000000, 100_000000, 50).value.1.rewardsRedeemed == 1_000_000000 &&
      RedeemRewards(e, 100_000000, 100_000000, 50).value.0.remainingRewardAmount == 9_000_000000
  {
    Reward.ProductFitsU128(100_000000, 10_000_000000);
  }

  /**
   * A second successful claim reports nothing and changes nothing: the claim
   * is idempotent even though it never checks `isActive`.
   */
  lemma ClaimIsIdempotent(e: EscrowRecord, caller: Pubkey, now: I64, caller2: Pubkey, now2: I64)
    requires ClaimRemainingRewards(e, caller, now).Ok?
    requires now2 >= e.expiresAt && caller2 == e.minter
    ensures var (f, _) := ClaimRemainingRewards(e, caller, now).value;
      ClaimRemainingRewards(f, caller2, now2) == Ok((f, 0))
  {
  }

  /** Every step of the escrow's life, with the caller-supplied inputs of that step. */
  datatype Instruction =
    | Lock(rewardAmount: U64, walletIndex: U8)
    | Redeem(burnAmount: U64, userBalance: U64, redeemNow: I64)
    | Claim(caller: Pubkey, claimNow: I64)

  /** The record after one instruction and the amount it paid out of the pool; a failed instruction changes nothing. */
  function Apply(e: EscrowRecord, ins: Instruction): (EscrowRecord, nat) {
    match ins
    case Lock(amount, index) =>
      (match LockFunds(e, amount, index) case Ok(f) => (f, 0) case Err(_) => (e, 0))
    case Redeem(burn, balance, now) =>
      (match RedeemRewards(e, burn, balance, now)
       case Ok((f, report)) => (f, report.rewardsRedeemed)
       case Err(_) => (e, 0))
    case Claim(caller, now) =>
      (match ClaimRemainingRewards(e, caller, now) case Ok((f, amount)) => (f, amount) case Err(_) => (e, 0))
  }

  /** The record after a sequence of instructions. */
  function Run(e: EscrowRecord, trace: seq<Instruction>): EscrowRecord
    decreases |trace|
  {
    if trace == [] then e else Run(Apply(e, trace[0]).0, trace[1..])
  }

  /** The total paid out of the pool over a sequence of instructions, as rewards and as the final claim. */
  function PaidOut(e: EscrowRecord, trace: seq<Instruction>): nat
    decreases |trace|
  {
    if trace == [] then 0 else Apply(e, trace[0]).1 + PaidOut(Apply(e, trace[0]).0, trace[1..])
  }

  /** One instruction keeps the invariant and the terms, and conserves the pool. */
  lemma {:induction false} ApplyPreserves(e: EscrowRecord, ins: Instruction)
    requires Invariant(e)
    ensures var (f, paid) := Apply(e, ins);
      && Invariant(f) && SameTerms(e, f)
      && f.remainingRewardAmount + paid == e.remainingRewardAmount
      && f.burnedTokenAmount >= e.burnedTokenAmount
      && (!e.isActive ==> !f.isActive)
  {
    match ins
    case Lock(amount, index) =>
    case Redeem(burn, balance, now) =>
      if RedeemRewards(e, burn, balance, now).Ok? {
        RedeemPreservesInvariant(e, burn, balance, now);
      }
    case Claim(caller, now) =>
  }

  /**
   * Over any sequence of instructions the invariant and the terms hold, and the
   * pool is conserved: what is left plus what was paid out is what there was.
   */
  lemma {:induction false} RunConservesPool(e: EscrowRecord, trace: seq<Instruction>)
    requires Invariant(e)
    ensures var f := Run(e, trace);
      && Invariant(f) && SameTerms(e, f)
      && f.remainingRewardAmount + PaidOut(e, trace) == e.remainingRewardAmount
      && f.burnedTokenAmount >= e.burnedTokenAmount
    decreases |trace|
  {
    if trace != [] {
      ApplyPreserves(e, trace[0]);
      RunConservesPool(Apply(e, trace[0]).0, trace[1..]);
    }
  }

  /** From creation on, everything paid out plus what is left is exactly the reward locked. */
  lemma RewardsConservedFromCreation(mint: Pubkey, minter: Pubkey, asset: RewardAsset, total: U64,
                                     supply: U64, expiresAt: I64, now: I64, trace: seq<Instruction>)
    ensures var e := InitializeEscrow(mint, minter, asset, total, supply, expiresAt, now);
      Run(e, trace).remainingRewardAmount + PaidOut(e, trace) == total
  {
    RunConservesPool(InitializeEscrow(mint, minter, asset, total, supply, expiresAt, now), trace);
  }

  /** A closed escrow stays closed and empty, and no later instruction pays anything out of it. */
  lemma {:induction false} ClosedIsTerminal(e: EscrowRecord, trace: seq<Instruction>)
    requires Invariant(e) && !e.isActive
    ensures !Run(e, trace).isActive && Run(e, trace).remainingRewardAmount == 0
    ensures PaidOut(e, trace) == 0
    decreases |trace|
  {
    if trace != [] {
      ApplyPreserves(e, trace[0]);
      ClosedIsTerminal(Apply(e, trace[0]).0, trace[1..]);
    }
  }
}
