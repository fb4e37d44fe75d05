# fluter-by reward escrow, modelled in Dafny

The fluter-by program is a Solana (Anchor) reward escrow tied to a token mint. A minter creates an escrow
record holding a total reward amount and a declared total supply of the claim token. Until the expiry,
holders burn claim tokens and receive `floor(burn × remaining / supply)` out of the remaining pool. After
the expiry, the minter claims whatever is left, which closes the record. A separate account rotates
round-robin over five reward wallets.

This project models the instruction handlers and the account layouts:

- `types.dfy` (`Types`) holds the machine integer ranges (`U8`, `U64`, `U128`, `I64` as bounded
  integers), 32-byte public keys, the reward-asset tag and the program's error enum.
- `reward.dfy` (`Reward`) holds the reward formula. It does `u128` `checked_mul` and `checked_div`, then
  an explicit `as u64` truncation (`% 2^64`).
- `escrow_spec.dfy` (`EscrowSpec`) holds the escrow record as a value, with each escrow handler as a step
  function that runs its guards in the source's order. It also holds traces of instructions, and lemmas
  about one step and about whole traces.
- `state.dfy` (`State`) holds the account classes, the wallet rotator and the `INIT_SPACE` constants.
  `RewardWallets.GetNextWallet` updates the account in place and is proved against `NextWallet`.
  `Rotate` and its lemmas describe repeated calls as values.
- `instructions.dfy` (`Instructions`) holds the handlers as methods. They update the account objects
  field by field. The escrow methods are proved to agree with the `EscrowSpec` step functions, and a
  failed instruction leaves the account as it was.

The clock (`Clock::get`) and the caller's key are method parameters. The amounts that `emit!` reports are
returned as results. A failed instruction rolls back its transaction, so the model leaves the state
unchanged on every error.

Some behaviours of the code are easy to miss. The model follows the code on each of them:

- `claim_remaining_rewards` never checks `is_active`. A second claim by the minter therefore succeeds. It
  reports 0 and changes nothing (`ClaimIsIdempotent`).
- `lock_funds` does not check `is_active` either. On a closed escrow it still records the wallet index.
- `initialize_escrow` stores `expires_at` without comparing it to the clock. It does not check that the
  amounts are non-zero.
- The declared supply is never checked against the real mint supply. When a burn exceeds the declared
  supply, the `u128` quotient can exceed 2^64. The `as u64` cast then wraps it, and the wrapped value can
  pass the pool check (`TruncatedRewardFitsPool`). This needs a burn larger than the declared supply
  (`TruncationNeedsOversizedBurn`). Within the supply, the reward is exactly the floor of the share and
  never more than the pool (`RewardIsProportionalShare`).
- The `checked_sub` on the pool (instructions.rs:123-125) cannot fail, because the reward was checked
  against the pool just before. It is modelled as a plain subtraction.
- In `get_next_wallet`, an index of 5 or more would panic on the array access. `total_rotations += 1` at
  the counter's limit is assumed to panic, as under Anchor's default `overflow-checks = true`. Both panics
  are modelled as `None` with the account unchanged.

The handlers have no reward shards, no check that the total divides evenly, no `is_active` check in
`claim_remaining_rewards` and no duplicate-escrow error.

## Model

| member | source | states |
|---|---|---|
| `Reward.ProductFitsU128` | programs/fluter-by/src/instructions.rs:107-108 | the `u128` product of two `u64` values never overflows, so `checked_mul` always succeeds |
| `Reward.ComputeReward` | programs/fluter-by/src/instructions.rs:107-110 | the reward computation fails exactly when the declared supply is 0, and then with `RewardCalculationOverflow` |
| `Reward.RewardIsProportionalShare` | programs/fluter-by/src/instructions.rs:107-110 | when burn ≤ supply, the reward is the exact floor of `burn × remaining / supply` (no truncation) and is ≤ remaining |
| `Reward.RewardIsTruncatedQuotient` | programs/fluter-by/src/instructions.rs:107-110 | for every burn and pool and every non-zero supply the computation succeeds with the `u128` floor quotient `burn × pool / supply` reduced modulo 2^64 |
| `Reward.TruncatedRewardFitsPool` | programs/fluter-by/src/instructions.rs:107-116 | with supply 1, pool 2 and burn 2^63+1, the exact share is 2^64+2 but the `as u64` reward is 2, which passes the pool check |
| `Reward.TruncationNeedsOversizedBurn` | programs/fluter-by/src/instructions.rs:107-110 | a quotient that the cast truncates requires a burn larger than the declared supply |
| `EscrowSpec.InitializeEscrow` | programs/fluter-by/src/instructions.rs:8-29 | creates an active record storing the given mint, minter, reward asset and total supply, with remaining = total, 0 burned, wallet index 0, created at `now`, the given expiry unchecked, and the invariant holding |
| `EscrowSpec.LockFunds` | programs/fluter-by/src/instructions.rs:53-66 | succeeds iff index < 5 and amount ≤ total; an index ≥ 5 gives `InvalidEscrowWalletIndex` first, then an excess amount gives `InsufficientFunds`; success changes only the wallet index |
| `EscrowSpec.RedeemRewards` | programs/fluter-by/src/instructions.rs:89-138 | guards run in order: `EscrowNotFound`, `EscrowExpired`, `InsufficientTokenBalance`, zero supply, `InsufficientFunds`, burned-counter overflow; success moves exactly the reward out of the pool, adds exactly the burn to the burned counter, changes no other field and reports the new pool |
| `EscrowSpec.ClaimRemainingRewards` | programs/fluter-by/src/instructions.rs:151-170 | succeeds iff now ≥ expiry and the caller is the minter, with `EscrowNotExpired` checked before `UnauthorizedMinter`; success deactivates, empties the pool, reports the previous pool and changes nothing else |
| `EscrowSpec.RedeemPreservesInvariant` | programs/fluter-by/src/instructions.rs:113-125 | a successful redeem keeps the invariant and the escrow's terms, keeps it active and never grows the pool |
| `EscrowSpec.RedeemWithinSupplyPaysShare` | programs/fluter-by/src/instructions.rs:107-125 | a burn within the declared supply that passes the earlier guards, with room in the burned counter, succeeds and pays the floor of its share of the pool |
| `EscrowSpec.ProportionalFirstRedemption` | programs/fluter-by/src/instructions.rs:107-125 | on a new escrow of 10 000 000 000 reward against a supply of 1 000 000 000, burning 100 000 000 pays 1 000 000 000 and leaves 9 000 000 000 |
| `EscrowSpec.ClaimIsIdempotent` | programs/fluter-by/src/instructions.rs:148-170 | after a successful claim, another claim by the minter after expiry succeeds, reports 0 and leaves the record unchanged |
| `EscrowSpec.ApplyPreserves` | programs/fluter-by/src/instructions.rs:53-170 | any lock, redeem or claim keeps the invariant (remaining ≤ total, index < 5, inactive ⇒ empty pool) and the terms, conserves the pool, never decreases the burned counter, and never reopens a closed escrow |
| `EscrowSpec.RunConservesPool` | programs/fluter-by/src/instructions.rs:53-170 | over any trace of instructions the invariant and terms hold, and remaining plus everything paid out equals the starting pool |
| `EscrowSpec.RewardsConservedFromCreation` | programs/fluter-by/src/instructions.rs:19-170 | from creation on, remaining plus everything paid out as rewards and claims is exactly the total reward |
| `EscrowSpec.ClosedIsTerminal` | programs/fluter-by/src/instructions.rs:90-93 | a closed escrow stays inactive and empty under any trace, and nothing more is paid out of it |
| `State.EscrowAccount.constructor` | programs/fluter-by/src/state.rs:111-125 | a new escrow account has all eleven fields zero and is inactive |
| `State.MinterAccount.constructor` | programs/fluter-by/src/state.rs:142-150 | a new minter account has every field zero |
| `State.DistributorAccount.constructor` | programs/fluter-by/src/state.rs:161-168 | a new distributor account has every field zero |
| `State.NextWallet` | programs/fluter-by/src/state.rs:192-197 | succeeds iff the index is < 5 and the counter has room; returns the wallet at the old index, moves the index to the next slot (4 wraps to 0, so it stays < 5), adds exactly 1 to the counter and leaves the wallets unchanged |
| `State.RotateRoundRobin` | programs/fluter-by/src/state.rs:192-197 | n calls return the wallets round-robin from the current index, move the index n slots modulo 5 and count n rotations |
| `State.FiveCallsVisitEveryWallet` | programs/fluter-by/src/state.rs:192-196 | five calls return every wallet once, in index order from the current one, and restore the index |
| `State.RewardWallets.constructor` | programs/fluter-by/src/state.rs:178-184 | a new rotator account has five zero keys, index 0 and no rotations |
| `State.RewardWallets.GetNextWallet` | programs/fluter-by/src/state.rs:192-197 | updates the index and counter in place as `NextWallet` says and never writes the wallet array; on a panic the account is unchanged |
| `State.EscrowAccountSpace` | programs/fluter-by/src/state.rs:127-140 | escrow `INIT_SPACE` is the discriminator plus the field sizes: 123 |
| `State.MinterAccountSpace` | programs/fluter-by/src/state.rs:152-159 | minter `INIT_SPACE` is the discriminator plus the field sizes: 72 |
| `State.DistributorAccountSpace` | programs/fluter-by/src/state.rs:170-176 | distributor `INIT_SPACE` is the discriminator plus the field sizes: 64 |
| `State.RewardWalletsSpace` | programs/fluter-by/src/state.rs:186-190 | reward-wallets `INIT_SPACE` is the discriminator plus the field sizes: 177 |
| `Instructions.InitializeEscrow` | programs/fluter-by/src/instructions.rs:8-43 | writes the escrow account's fields so that its record is `EscrowSpec.InitializeEscrow` and satisfies the invariant |
| `Instructions.LockFunds` | programs/fluter-by/src/instructions.rs:45-80 | runs the two guards, then writes only the wallet index, as `EscrowSpec.LockFunds` says; on error the account is unchanged |
| `Instructions.RedeemRewards` | programs/fluter-by/src/instructions.rs:82-143 | runs the guards, computes the reward and updates the burned counter and the pool in place, as `EscrowSpec.RedeemRewards` says; the new pool plus the reward is the old pool |
| `Instructions.ClaimRemainingRewards` | programs/fluter-by/src/instructions.rs:145-180 | gates on expiry and minter, then closes and empties the escrow, as `EscrowSpec.ClaimRemainingRewards` says; returns the previous pool |
| `Instructions.RegisterMinter` | programs/fluter-by/src/instructions.rs:182-202 | records the minter and the clock, and zeroes the three counters |
| `Instructions.RegisterDistributor` | programs/fluter-by/src/instructions.rs:204-222 | records the distributor and the clock, and zeroes the two counters |
| `Instructions.InitializeRewardWallets` | programs/fluter-by/src/instructions.rs:224-244 | copies the five wallets into the account's array in place, and sets the index and the counter to 0 |

## Left out

- Anchor account validation is runtime plumbing, not handler logic: the `#[derive(Accounts)]` structs, PDA
  seeds and bumps, `init`/`payer`/`space` and the `Signer` checks (state.rs:11-109, instructions.rs:247-296).
  The `constraint` at state.rs:93 repeats the handler's minter check, so the caller is a plain parameter
  and only the handler's check is modelled. Anchor runs that constraint before the handler, so a caller
  who is not the minter gets Anchor's constraint error whether or not the escrow has expired, and
  `UnauthorizedMinter` is never returned in practice. The error order in `ClaimRemainingRewards` is the
  handler's own order only. The failure of `init` on an account that already exists is
  left out too.
- `Clock::get()` is a parameter `now`, so its error path is not modelled.
- `emit!` is logging. Only the amounts it reports are returned. The event's keys and timestamps are left
  out, and so are the events of `initialize_escrow`, `lock_funds`, the registrations and
  `initialize_reward_wallets`.
- The code does not implement token burns or transfers (instructions.rs:68-69, 127-131, 165-166 are
  comments only), so the model has none. There are no shards and no remainder distribution either.
- lib.rs dispatches to handlers that instructions.rs does not define (`initialize_escrow_wallet`,
  `withdraw_expired_rewards`, a seven-argument `lock_funds`). lib.rs is not part of this model.
  event.rs and events.rs only declare event payloads.
- The `RewardAsset` tag has no behaviour and is kept as an opaque value.
- `get_next_wallet` is not called by any handler. It is modelled on its own.
- Anchor allocates `8 + INIT_SPACE` bytes while each `INIT_SPACE` already includes the 8-byte
  discriminator. The model states only that each constant equals its field sum. How Anchor uses the
  allocated space is not modelled.
