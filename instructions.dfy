/**
 * The instruction handlers. Each takes the accounts it writes, runs its guards
 * in order and then updates the account's fields in place. The clock and the
 * caller's key are parameters; the emitted events are the methods' results.
 */
module Instructions {
  import opened Types
  import Reward
  import EscrowSpec
  import opened State

  /** `initialize_escrow`: fills a newly allocated escrow account. */
  method InitializeEscrow(escrow: EscrowAccount, mint: Pubkey, minter: Pubkey, rewardAsset: RewardAsset,
                          totalRewardAmount: U64, totalTokenSupply: U64, expiresAt: I64, now: I64)
    modifies escrow
    ensures escrow.Record() ==
      EscrowSpec.InitializeEscrow(mint, minter, rewardAsset, totalRewardAmount, totalTokenSupply, expiresAt, now)
    ensures EscrowSpec.Invariant(escrow.Record())
  {
    escrow.mint := mint;
    escrow.minter := minter;
    escrow.rewardAsset := rewardAsset;
    escrow.totalRewardAmount := totalRewardAmount;
    escrow.remainingRewardAmount := totalRewardAmount;
    escrow.totalTokenSupply := totalTokenSupply;
    escrow.burnedTokenAmount := 0;
    escrow.escrowWalletIndex := 0;
    escrow.createdAt := now;
    escrow.expiresAt := expiresAt;
    escrow.isActive := true;
  }

  /** `lock_funds`: validates the wallet index and the amount, then records the index. */
  method LockFunds(escrow: EscrowAccount, rewardAmount: U64, walletIndex: U8) returns (r: Result<()>)
    modifies escrow
    ensures var spec := EscrowSpec.LockFunds(old(escrow.Record()), rewardAmount, walletIndex);
      && (spec.Ok? ==> r == Ok(()) && escrow.Record() == spec.value)
      && (spec.Err? ==> r == Err(spec.error) && escrow.Record() == old(escrow.Record()))
  {
    if walletIndex >= WALLET_COUNT {
      return Err(InvalidEscrowWalletIndex);
    }
    if rewardAmount > escrow.totalRewardAmount {
      return Err(InsufficientFunds);
    }
    escrow.escrowWalletIndex := walletIndex;
    r := Ok(());
  }

  /**
   * `redeem_rewards`: `userBalance` is the caller's claim-token balance and
   * `now` the clock. Returns the amounts of the redemption event.
   */
  method RedeemRewards(escrow: EscrowAccount, burnAmount: U64, userBalance: U64, now: I64)
    returns (r: Result<EscrowSpec.RedeemReport>)
    modifies escrow
    ensures var spec := EscrowSpec.RedeemRewards(old(escrow.Record()), burnAmount, userBalance, now);
      && (spec.Ok? ==> r == Ok(spec.value.1) && escrow.Record() == spec.value.0)
      && (spec.Err? ==> r == Err(spec.error) && escrow.Record() == old(escrow.Record()))
    ensures r.Ok? ==> escrow.remainingRewardAmount + r.value.rewardsRedeemed == old(escrow.remainingRewardAmount)
  {
    if !escrow.isActive {
      return Err(EscrowNotFound);
    }
    if now >= escrow.expiresAt {
      return Err(EscrowExpired);
    }
    if burnAmount > userBalance {
      return Err(InsufficientTokenBalance);
    }
    var computed := Reward.ComputeReward(burnAmount, escrow.remainingRewardAmount, escrow.totalTokenSupply);
    if computed.Err? {
      return Err(computed.error);
    }
    var reward := computed.value;
    if reward > escrow.remainingRewardAmount {
      return Err(InsufficientFunds);
    }
    if escrow.burnedTokenAmount + burnAmount >= U64_LIMIT {
      return Err(RewardCalculationOverflow);
    }
    escrow.burnedTokenAmount := escrow.burnedTokenAmount + burnAmount;
    // cannot underflow: the reward was just checked against the pool
    escrow.remainingRewardAmount := escrow.remainingRewardAmount - reward;
    r := Ok(EscrowSpec.RedeemReport(burnAmount, reward, escrow.remainingRewardAmount));
  }

  /**
   * `claim_remaining_rewards`: `caller` is the signing minter's key and `now`
   * the clock. Returns the amount the pool held, as the claim event reports it.
   */
  method ClaimRemainingRewards(escrow: EscrowAccount, caller: Pubkey, now: I64) returns (r: Result<U64>)
    modifies escrow
    ensures var spec := EscrowSpec.ClaimRemainingRewards(old(escrow.Record()), caller, now);
      && (spec.Ok? ==> r == Ok(spec.value.1) && escrow.Record() == spec.value.0)
      && (spec.Err? ==> r == Err(spec.error) && escrow.Record() == old(escrow.Record()))
    ensures r.Ok? ==> r.value == old(escrow.remainingRewardAmount) && escrow.remainingRewardAmount == 0
  {
    if now < escrow.expiresAt {
      return Err(EscrowNotExpired);
    }
    if escrow.minter != caller {
      return Err(UnauthorizedMinter);
    }
    var remainingAmount := escrow.remainingRewardAmount;
    escrow.isActive := false;
    escrow.remainingRewardAmount := 0;
    r := Ok(remainingAmount);
  }

  /** `register_minter`: records the minter and zeroes its counters. */
  method RegisterMinter(account: MinterAccount, minter: Pubkey, now: I64)
    modifies account
    ensures account.minter == minter && account.createdAt == now
    ensures account.totalEscrowsCreated == account.totalRewardsLocked == account.totalRewardsClaimed == 0
  {
    account.minter := minter;
    account.totalEscrowsCreated := 0;
    account.totalRewardsLocked := 0;
    account.totalRewardsClaimed := 0;
    account.createdAt := now;
  }

  /** `register_distributor`: records the distributor and zeroes its counters. */
  method RegisterDistributor(account: DistributorAccount, distributor: Pubkey, now: I64)
    modifies account
    ensures account.distributor == distributor && account.createdAt == now
    ensures account.totalTokensBurned == account.totalRewardsRedeemed == 0
  {
    account.distributor := distributor;
    account.totalTokensBurned := 0;
    account.totalRewardsRedeemed := 0;
    account.createdAt := now;
  }

  /** `initialize_reward_wallets`: copies the five wallets into the account and restarts the rotation. */
  method InitializeRewardWallets(account: RewardWallets, wallets: WalletList)
    requires account.Valid()
    modifies account, account.wallets
    ensures account.Valid()
    ensures account.State() == WalletRotation(wallets, 0, 0)
  {
    forall i | 0 <= i < WALLET_COUNT {
      account.wallets[i] := wallets[i];
    }
    account.currentIndex := 0;
    account.totalRotations := 0;
  }
}
