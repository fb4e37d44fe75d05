/** Machine integer ranges, account keys, and the program's error codes. */
module Types {

  /** Exclusive upper bounds of Rust's unsigned integer types. */
  const U64_LIMIT: nat := 0x1_0000_0000_0000_0000
  const U128_LIMIT: nat := 0x1_0000_0000_0000_0000_0000_0000_0000_0000

  type U8 = x: nat | x < 0x100
  type U64 = x: nat | x < 0x1_0000_0000_0000_0000
  type U128 = x: nat | x < 0x1_0000_0000_0000_0000_0000_0000_0000_0000
  /** Unix timestamps are `i64`. */
  type I64 = x: int | -0x8000_0000_0000_0000 <= x < 0x8000_0000_0000_0000

  /** A Solana public key: 32 opaque bytes, compared only for equality. */
  type Pubkey = k: seq<bv8> | |k| == 32 witness seq(32, _ => 0 as bv8)

  const ZERO_KEY: Pubkey := seq(32, _ => 0 as bv8)

  /** The reward tag of an escrow; it carries no behaviour. */
  datatype RewardAsset = SOL | USDC

  /** The variants of the program's error enum. */
  datatype FluterByError =
    | EscrowExpired
    | EscrowNotExpired
    | InsufficientFunds
    | InvalidRewardAsset
    | UnauthorizedMinter
    | InvalidEscrowWalletIndex
    | InsufficientTokenBalance
    | EscrowNotFound
    | InvalidMintAuthority
    | RewardCalculationOverflow
    | EscrowWalletRotationError

  datatype Option<+T> = None | Some(value: T)

  /** An instruction's result: success with a value, or one of the program's errors. */
  datatype Result<+T> = Ok(value: T) | Err(error: FluterByError)
}
