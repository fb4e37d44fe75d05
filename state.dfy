/**
 * The program's accounts: their fields, their serialized sizes, and the
 * round-robin rotator over the five reward wallets.
 */
module State {
  import opened Types

  /** Number of reward wallets: the escrow's wallet index and the rotator both range over five slots. */
  const WALLET_COUNT: nat := 5

  /** The fields of an escrow account, in declaration order, as a value. */
  datatype EscrowRecord = EscrowRecord(
    mint: Pubkey,
    minter: Pubkey,
    rewardAsset: RewardAsset,
    totalRewardAmount: U64,
    remainingRewardAmount: U64,
    totalTokenSupply: U64,
    burnedTokenAmount: U64,
    escrowWalletIndex: U8,
    createdAt: I64,
    expiresAt: I64,
    isActive: bool)

  /** The escrow account, updated in place by the escrow instructions. */
  class EscrowAccount {
    var mint: Pubkey
    var minter: Pubkey
    var rewardAsset: RewardAsset
    var totalRewardAmount: U64
    var remainingRewardAmount: U64
    var totalTokenSupply: U64
    var burnedTokenAmount: U64
    var escrowWalletIndex: U8
    var createdAt: I64
    var expiresAt: I64
    var isActive: bool

    /** The account's fields as a value. */
    function Record(): EscrowRecord
      reads this
    {
      EscrowRecord(mint, minter, rewardAsset, totalRewardAmount, remainingRewardAmount, totalTokenSupply,
                   burnedTokenAmount, escrowWalletIndex, createdAt, expiresAt, isActive)
    }

    /** A newly allocated account: every field zero, the first asset tag, inactive. */
    constructor ()
      ensures Record() == EscrowRecord(ZERO_KEY, ZERO_KEY, SOL, 0, 0, 0, 0, 0, 0, 0, false)
    {
      mint, minter, rewardAsset := ZERO_KEY, ZERO_KEY, SOL;
      totalRewardAmount, remainingRewardAmount, totalTokenSupply, burnedTokenAmount := 0, 0, 0, 0;
      escrowWalletIndex, createdAt, expiresAt, isActive := 0, 0, 0, false;
    }
  }

  /** Per-minter counters. */
  class MinterAccount {
    var minter: Pubkey
    var totalEscrowsCreated: U64
    var totalRewardsLocked: U64
    var totalRewardsClaimed: U64
    var createdAt: I64

    /** A newly allocated account with every field zero. */
    constructor ()
      ensures minter == ZERO_KEY && createdAt == 0
      ensures totalEscrowsCreated == totalRewardsLocked == totalRewardsClaimed == 0
    {
      minter, createdAt := ZERO_KEY, 0;
      totalEscrowsCreated, totalRewardsLocked, totalRewardsClaimed := 0, 0, 0;
    }
  }

  /** Per-distributor counters. */
  class DistributorAccount {
    var distributor: Pubkey
    var totalTokensBurned: U64
    var totalRewardsRedeemed: U64
    var createdAt: I64

    /** A newly allocated account with every field zero. */
    constructor ()
      ensures distributor == ZERO_KEY && createdAt == 0
      ensures totalTokensBurned == totalRewardsRedeemed == 0
    {
      distributor, createdAt := ZERO_KEY, 0;
      totalTokensBurned, totalRewardsRedeemed := 0, 0;
    }
  }

  /** The fixed-size array of reward wallets, as a value. */
  type WalletList = ws: seq<Pubkey> | |ws| == 5 witness seq(5, _ => ZERO_KEY)

  /** The rotator's state as a value. */
  datatype WalletRotation = WalletRotation(wallets: WalletList, currentIndex: U8, totalRotations: U64)

  /**
   * One call of `get_next_wallet`: the wallet at the current index, and the
   * rotator moved to the next slot (wrapping from the last to the first) with
   * one more rotation counted. `None` is a panic that aborts the transaction:
   * an index outside the array, or a rotation counter that would overflow.
   */
  function NextWallet(s: WalletRotation): (r: Option<(Pubkey, WalletRotation)>)
    ensures r.Some? <==> s.currentIndex < WALLET_COUNT && s.totalRotations + 1 < U64_LIMIT
    ensures r.Some? ==>
      var (wallet, t) := r.value;
      && wallet == s.wallets[s.currentIndex]
      && t.wallets == s.wallets
      && t.totalRotations == s.totalRotations + 1
      && t.currentIndex < WALLET_COUNT
      && (if s.currentIndex == WALLET_COUNT - 1 then t.currentIndex == 0 else t.currentIndex == s.currentIndex + 1)
  {
    if s.currentIndex >= WALLET_COUNT then None
    else
      var wallet := s.wallets[s.currentIndex];
      if s.totalRotations + 1 >= U64_LIMIT then None
      else Some((wallet, s.(currentIndex := (s.currentIndex + 1) % WALLET_COUNT,
                            totalRotations := s.totalRotations + 1)))
  }

  /** `n` consecutive calls of `get_next_wallet`: the wallets returned, in order, and the final state. */
  function Rotate(s: WalletRotation, n: nat): Option<(seq<Pubkey>, WalletRotation)>
    decreases n
  {
    if n == 0 then Some(([], s))
    else
      match NextWallet(s)
      case None => None
      case Some((wallet, t)) =>
        match Rotate(t, n - 1)
        case None => None
        case Some((rest, u)) => Some(([wallet] + rest, u))
  }

  /** The wallets `n` calls return, starting from index `start`. */
  function RoundRobin(wallets: WalletList, start: nat, n: nat): seq<Pubkey> {
    seq(n, i => wallets[(start + i) % WALLET_COUNT])
  }

  /** The first of `n > 0` round-robin picks is the start slot; the rest start one slot later. */
  lemma RoundRobinStep(wallets: WalletList, start: nat, n: nat)
    requires 0 < n && start < WALLET_COUNT
    ensures RoundRobin(wallets, start, n) == [wallets[start]] + RoundRobin(wallets, (start + 1) % WALLET_COUNT, n - 1)
  {
    var whole := RoundRobin(wallets, start, n);
    var tail := RoundRobin(wallets, (start + 1) % WALLET_COUNT, n - 1);
    forall i | 0 <= i < n - 1
      ensures whole[i + 1] == tail[i]
    {
      assert ((start + 1) % WALLET_COUNT + i) % WALLET_COUNT == (start + (i + 1)) % WALLET_COUNT;
    }
  }

  /**
   * From a state with an index inside the array, `n` calls return the wallets
   * round-robin from the current index, advance the index by `n` slots modulo
   * five and count `n` rotations, as long as the counter does not overflow.
   */
  lemma {:induction false} RotateRoundRobin(s: WalletRotation, n: nat)
    requires s.currentIndex < WALLET_COUNT && s.totalRotations + n < U64_LIMIT
    ensures Rotate(s, n).Some?
    ensures Rotate(s, n).value.0 == RoundRobin(s.wallets, s.currentIndex, n)
    ensures Rotate(s, n).value.1 == s.(currentIndex := (s.currentIndex + n) % WALLET_COUNT,
                                       totalRotations := s.totalRotations + n)
    decreases n
  {
    if n > 0 {
      var (wallet, t) := NextWallet(s).value;
      assert t.currentIndex == (s.currentIndex + 1) % WALLET_COUNT;
      RotateRoundRobin(t, n - 1);
      RoundRobinStep(s.wallets, s.currentIndex, n);
      assert (t.currentIndex + (n - 1)) % WALLET_COUNT == (s.currentIndex + n) % WALLET_COUNT;
    } else {
      assert RoundRobin(s.wallets, s.currentIndex, 0) == [];
      assert s.currentIndex % WALLET_COUNT == s.currentIndex;
    }
  }

  /** Five round-robin picks from slot `start` are the array rotated to begin at `start`. */
  lemma RoundRobinCoversArray(wallets: WalletList, start: nat)
    requires start < WALLET_COUNT
    ensures RoundRobin(wallets, start, WALLET_COUNT) == wallets[start..] + wallets[..start]
  {
    var picks := RoundRobin(wallets, start, WALLET_COUNT);
    var rotated := wallets[start..] + wallets[..start];
    forall i | 0 <= i < WALLET_COUNT
      ensures picks[i] == rotated[i]
    {
      if start + i < WALLET_COUNT {
        assert (start + i) % WALLET_COUNT == start + i;
      } else {
        assert (start + i) % WALLET_COUNT == start + i - WALLET_COUNT;
      }
    }
  }

  /**
   * As many consecutive calls as there are wallets return every wallet once, in
   * index order starting at the current one, and bring the index back to where
   * it was. The number of calls is a parameter fixed to five by the requires
   * rather than the literal 5: with a literal count the verifier unfolds
   * `Rotate` five levels deep and runs out of resources.
   */
  lemma FiveCallsVisitEveryWallet(s: WalletRotation, calls: nat)
    requires calls == WALLET_COUNT
    requires s.currentIndex < WALLET_COUNT && s.totalRotations + calls < U64_LIMIT
    ensures Rotate(s, calls).Some?
    ensures Rotate(s, calls).value.0 == s.wallets[s.currentIndex..] + s.wallets[..s.currentIndex]
    ensures Rotate(s, calls).value.1 == s.(totalRotations := s.totalRotations + calls)
  {
    RotateRoundRobin(s, calls);
    RoundRobinCoversArray(s.wallets, s.currentIndex);
    assert (s.currentIndex + calls) % WALLET_COUNT == s.currentIndex;
  }

  /** The rotator account; `get_next_wallet` updates its index and counter in place. */
  class RewardWallets {
    var wallets: array<Pubkey>
    var currentIndex: U8
    var totalRotations: U64

    /** The wallet array has the five slots its type fixes. */
    ghost predicate Valid()
      reads this
    {
      wallets.Length == WALLET_COUNT
    }

    /** The account's fields as a value. */
    function State(): WalletRotation
      reads this, wallets
      requires Valid()
    {
      WalletRotation(wallets[..], currentIndex, totalRotations)
    }

    /** A newly allocated account: five zero keys, index and counter zero. */
    constructor ()
      ensures Valid() && fresh(wallets)
      ensures State() == WalletRotation(seq(5, _ => ZERO_KEY), 0, 0)
    {
      wallets := new Pubkey[5](_ => ZERO_KEY);
      currentIndex, totalRotations := 0, 0;
    }

    /**
     * `get_next_wallet`: returns the wallet at the current index, advances the
     * index and counts one rotation; the wallet array itself is left as it is.
     * A panic returns `None` and leaves the account unchanged.
     */
    method GetNextWallet() returns (w: Option<Pubkey>)
      requires Valid()
      modifies this
      ensures Valid() && wallets == old(wallets) && wallets[..] == old(wallets[..])
      ensures match NextWallet(old(State()))
        case None => w == None && State() == old(State())
        case Some((wallet, next)) => w == Some(wallet) && State() == next
    {
      if currentIndex >= WALLET_COUNT {
        // indexing the array out of bounds panics
        return None;
      }
      var wallet := wallets[currentIndex];
      if totalRotations + 1 >= U64_LIMIT {
        // the counter's `+= 1` overflow panics and the transaction is rolled back
        return None;
      }
      currentIndex := (currentIndex + 1) % WALLET_COUNT;
      totalRotations := totalRotations + 1;
      w := Some(wallet);
    }
  }

  /** The serialized width of each kind of field an account holds. */
  datatype FieldKind = PubkeyField | U64Field | I64Field | U8Field | BoolField | EnumTagField | PubkeyArrayField(len: nat)

  function FieldSize(k: FieldKind): nat {
    match k
    case PubkeyField => 32
    case U64Field => 8
    case I64Field => 8
    case U8Field => 1
    case BoolField => 1
    case EnumTagField => 1
    case PubkeyArrayField(len) => 32 * len
  }

  function LayoutSize(fields: seq<FieldKind>): nat {
    if fields == [] then 0 else FieldSize(fields[0]) + LayoutSize(fields[1..])
  }

  /** The serialized size of two field lists one after the other is the sum of their sizes. */
  lemma {:induction false} LayoutSizeConcat(a: seq<FieldKind>, b: seq<FieldKind>)
    ensures LayoutSize(a + b) == LayoutSize(a) + LayoutSize(b)
    decreases |a|
  {
    if a != [] {
      assert (a + b)[1..] == a[1..] + b;
      LayoutSizeConcat(a[1..], b);
    } else {
      assert a + b == b;
    }
  }

  const DISCRIMINATOR_SIZE: nat := 8

  /** Field kinds of each account, in declaration order. */
  const ESCROW_ACCOUNT_LAYOUT: seq<FieldKind> :=
    [PubkeyField, PubkeyField, EnumTagField, U64Field, U64Field, U64Field, U64Field, U8Field, I64Field, I64Field,
     BoolField]
  const MINTER_ACCOUNT_LAYOUT: seq<FieldKind> := [PubkeyField, U64Field, U64Field, U64Field, I64Field]
  const DISTRIBUTOR_ACCOUNT_LAYOUT: seq<FieldKind> := [PubkeyField, U64Field, U64Field, I64Field]
  const REWARD_WALLETS_LAYOUT: seq<FieldKind> := [PubkeyArrayField(WALLET_COUNT), U8Field, U64Field]

  /** The `INIT_SPACE` constants, written as the accounts write them: a discriminator and then each field. */
  const ESCROW_ACCOUNT_INIT_SPACE: nat := 8 + 32 + 32 + 1 + 8 + 8 + 8 + 8 + 1 + 8 + 8 + 1
  const MINTER_ACCOUNT_INIT_SPACE: nat := 8 + 32 + 8 + 8 + 8 + 8
  const DISTRIBUTOR_ACCOUNT_INIT_SPACE: nat := 8 + 32 + 8 + 8 + 8
  const REWARD_WALLETS_INIT_SPACE: nat := 8 + (32 * 5) + 1 + 8

  /** Each `INIT_SPACE` is the discriminator plus the serialized size of the account's fields. */
  lemma EscrowAccountSpace()
    ensures ESCROW_ACCOUNT_INIT_SPACE == DISCRIMINATOR_SIZE + LayoutSize(ESCROW_ACCOUNT_LAYOUT) == 123
  {
    var keysAndAmounts := [PubkeyField, PubkeyField, EnumTagField, U64Field, U64Field, U64Field];
    var countersAndTimes := [U64Field, U8Field, I64Field, I64Field, BoolField];
    assert ESCROW_ACCOUNT_LAYOUT == keysAndAmounts + countersAndTimes;
    assert LayoutSize(keysAndAmounts) == 89;
    assert LayoutSize(countersAndTimes) == 26;
    LayoutSizeConcat(keysAndAmounts, countersAndTimes);
  }

  lemma MinterAccountSpace()
    ensures MINTER_ACCOUNT_INIT_SPACE == DISCRIMINATOR_SIZE + LayoutSize(MINTER_ACCOUNT_LAYOUT) == 72
  {
  }

  lemma DistributorAccountSpace()
    ensures DISTRIBUTOR_ACCOUNT_INIT_SPACE == DISCRIMINATOR_SIZE + LayoutSize(DISTRIBUTOR_ACCOUNT_LAYOUT) == 64
  {
  }

  lemma RewardWalletsSpace()
    ensures REWARD_WALLETS_INIT_SPACE == DISCRIMINATOR_SIZE + LayoutSize(REWARD_WALLETS_LAYOUT) == 177
  {
    assert LayoutSize(REWARD_WALLETS_LAYOUT) == FieldSize(PubkeyArrayField(WALLET_COUNT)) + LayoutSize([U8Field, U64Field]);
  }
}
