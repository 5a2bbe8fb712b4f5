/** `claim_rewards`: mints the reward accrued since the Stake record's
    checkpoint to the caller's reward account, signing as the registry, and
    moves the checkpoint to now. The handler checks no signer or writable
    flag and not the Stake account's owner; the runtime, though, refuses the
    mint call unless the reward mint and the reward account are writable. */
module ClaimHandler {
  import opened Results
  import opened Bytes
  import opened Keys
  import opened Errors
  import opened Accounts
  import opened Programs
  import opened Rewards
  import StakeDetailsState
  import StakeState

  /** Positions in the instruction's account list. */
  const USER: nat := 0
  const STAKE: nat := 1
  const USER_REWARD: nat := 2
  const REWARD_MINT: nat := 3
  const STAKE_DETAILS: nat := 4
  const NFT_MINT: nat := 5
  const TOKEN_PROGRAM: nat := 6
  const ACCOUNT_COUNT: nat := 7

  function StakeAddress(env: Env, accounts: seq<AccountMeta>): Option<ProgramAddress>
    requires |accounts| >= ACCOUNT_COUNT
  {
    FindProgramAddress(env, StakeSeeds(accounts[STAKE_DETAILS].key, accounts[NFT_MINT].key, accounts[USER].key), env.programId)
  }

  /** The Stake account is the caller's, holds data, and that data decodes. */
  predicate StakeRead(env: Env, l: Ledger, accounts: seq<AccountMeta>) {
    && |accounts| >= ACCOUNT_COUNT
    && StakeAddress(env, accounts).Some?
    && StakeAddress(env, accounts).value.key == accounts[STAKE].key
    && StakeState.Decode(RawBytes(Get(l, accounts[STAKE].key))).Ok?
  }

  function StakeOf(l: Ledger, accounts: seq<AccountMeta>): StakeState.Stake
    requires |accounts| >= ACCOUNT_COUNT
    requires StakeState.Decode(RawBytes(Get(l, accounts[STAKE].key))).Ok?
  {
    StakeState.Decode(RawBytes(Get(l, accounts[STAKE].key))).value
  }

  /** The canonical reward account of the caller for the supplied mint. */
  function RewardAccountAddress(env: Env, accounts: seq<AccountMeta>): Option<Pubkey>
    requires |accounts| >= ACCOUNT_COUNT
  {
    AssociatedTokenAddress(env, accounts[USER].key, accounts[REWARD_MINT].key, accounts[TOKEN_PROGRAM].key)
  }

  /** The registry record, and the signers a mint under its seeds has. */
  function RegistryOf(l: Ledger, accounts: seq<AccountMeta>): Result<StakeDetailsState.StakeDetails, ProgramError>
    requires |accounts| >= ACCOUNT_COUNT
  {
    StakeDetailsState.Decode(RawBytes(Get(l, accounts[STAKE_DETAILS].key)))
  }

  function MintSigners(env: Env, accounts: seq<AccountMeta>, registry: StakeDetailsState.StakeDetails): set<Pubkey> {
    Signers(accounts) + PdaSigner(env, WithBump(StakeDetailsSeeds(registry.creator, registry.collectionMint), registry.bumpSeed))
  }

  /** Everything a claim needs: the handler's own checks, then what the
      runtime and the token program demand of the mint call. */
  predicate ClaimPossible(env: Env, l: Ledger, accounts: seq<AccountMeta>, now: i64) {
    && StakeRead(env, l, accounts)
    && !HasNoData(Get(l, accounts[STAKE].key))
    && RewardAccountAddress(env, accounts) == Some(accounts[USER_REWARD].key)
    && StakeOf(l, accounts).rewardMintAta == accounts[USER_REWARD].key
    && RewardAmount(now, StakeOf(l, accounts).stakedAt).Ok?
    && accounts[TOKEN_PROGRAM].key == env.tokenProgram
    && RegistryOf(l, accounts).Ok?
    && var mint := accounts[REWARD_MINT].key;
       var dest := accounts[USER_REWARD].key;
       var amount := RewardAmount(now, StakeOf(l, accounts).stakedAt).value;
       && accounts[REWARD_MINT].isWritable && accounts[USER_REWARD].isWritable
       && IsMint(env, l, mint) && IsTokenAccount(env, l, dest)
       && Get(l, dest).data.token.mint == mint
       && Get(l, mint).data.mintState.mintAuthority == Some(accounts[STAKE_DETAILS].key)
       && accounts[STAKE_DETAILS].key in MintSigners(env, accounts, RegistryOf(l, accounts).value)
       && Get(l, mint).data.mintState.supply + amount < U64_MODULUS
       && Get(l, dest).data.token.amount + amount < U64_MODULUS
  }

  function ClaimRewards(env: Env, l: Ledger, accounts: seq<AccountMeta>, now: i64): (r: Result<Ledger, ProgramError>)
    ensures r.Ok? <==> ClaimPossible(env, l, accounts, now)
    // Another caller's, or a made-up, Stake account is rejected before anything else.
    ensures |accounts| >= ACCOUNT_COUNT && StakeAddress(env, accounts).Some?
            && StakeAddress(env, accounts).value.key != accounts[STAKE].key
            ==> r == Err(InvalidAccountData)
    ensures |accounts| >= ACCOUNT_COUNT && StakeAddress(env, accounts).Some?
            && StakeAddress(env, accounts).value.key == accounts[STAKE].key
            && HasNoData(Get(l, accounts[STAKE].key))
            ==> r == Err(ToProgramError(AccountNotInitialized))
    // The reward account must be both canonical and the one the record names.
    ensures StakeRead(env, l, accounts) && RewardAccountAddress(env, accounts).Some?
            && (RewardAccountAddress(env, accounts).value != accounts[USER_REWARD].key
                || StakeOf(l, accounts).rewardMintAta != accounts[USER_REWARD].key)
            ==> r == Err(InvalidAccountData)
    // The mint call passes both token accounts as writable.
    ensures |accounts| >= ACCOUNT_COUNT
            && !(accounts[REWARD_MINT].isWritable && accounts[USER_REWARD].isWritable)
            ==> r.Err?
    ensures r.Ok? ==>
              && StakeRead(env, l, accounts)
              && RewardAccountAddress(env, accounts) == Some(accounts[USER_REWARD].key)
              && StakeOf(l, accounts).rewardMintAta == accounts[USER_REWARD].key
    ensures r.Ok? ==>
              var stake := accounts[STAKE].key;
              var dest := accounts[USER_REWARD].key;
              var mint := accounts[REWARD_MINT].key;
              var record := StakeOf(l, accounts);
              var amount := RewardAmount(now, record.stakedAt);
              // the accrued reward is minted to the reward account
              && amount.Ok?
              && IsTokenAccount(env, l, dest) && IsMint(env, l, mint)
              && TokenAmount(r.value, dest) == TokenAmount(l, dest) + amount.value
              && Get(l, mint).data.mintState.supply + amount.value < U64_MODULUS
              && Get(r.value, mint) == Get(l, mint).(data := MintData(Get(l, mint).data.mintState.(
                   supply := Get(l, mint).data.mintState.supply + amount.value)))
              // the checkpoint moves to now; nothing else in the record changes
              && Get(r.value, stake) == Get(l, stake).(data := Raw(StakeState.Encode(record.(stakedAt := now))))
              && UnchangedExcept(l, r.value, {stake, dest, mint})
    // The mint is signed for with the registry record's own seeds and bump.
    ensures r.Ok? && accounts[STAKE_DETAILS].key !in Signers(accounts) ==>
              var registry := StakeDetailsState.Decode(RawBytes(Get(l, accounts[STAKE_DETAILS].key)));
              && registry.Ok?
              && AddressWithBump(env, StakeDetailsSeeds(registry.value.creator, registry.value.collectionMint),
                                 registry.value.bumpSeed, env.programId)
                 == Some(accounts[STAKE_DETAILS].key)
              && Get(l, accounts[REWARD_MINT].key).data.mintState.mintAuthority == Some(accounts[STAKE_DETAILS].key)
  {
    var user :- NextAccount(accounts, USER);
    var stake :- NextAccount(accounts, STAKE);
    var userReward :- NextAccount(accounts, USER_REWARD);
    var rewardMint :- NextAccount(accounts, REWARD_MINT);
    var details :- NextAccount(accounts, STAKE_DETAILS);
    var nftMint :- NextAccount(accounts, NFT_MINT);
    var tokenProgram :- NextAccount(accounts, TOKEN_PROGRAM);
    var pa :- FindPda(env, StakeSeeds(details.key, nftMint.key, user.key), env.programId);
    :- Need(pa.key == stake.key, InvalidAccountData);
    :- Need(!HasNoData(Get(l, stake.key)), ToProgramError(AccountNotInitialized));
    var record :- StakeState.Decode(RawBytes(Get(l, stake.key)));
    var rewardAta :- FindAta(env, user.key, rewardMint.key, tokenProgram.key);
    :- Need(rewardAta == userReward.key, InvalidAccountData);
    :- Need(record.rewardMintAta == userReward.key, InvalidAccountData);
    var mint :- UnpackMint(Get(l, rewardMint.key));
    var amount :- RewardAmount(now, record.stakedAt);
    :- Need(tokenProgram.key == env.tokenProgram, IncorrectProgramId);
    var registry :- StakeDetailsState.Decode(RawBytes(Get(l, details.key)));
    // the runtime's check of the call: what the instruction writes must be writable here
    :- Need(rewardMint.isWritable && userReward.isWritable, CalleeFailed(PrivilegeEscalation));
    var l1 :- MintTo(env, l, rewardMint.key, userReward.key, details.key, amount, mint.decimals,
                     MintSigners(env, accounts, registry));
    Ok(WriteData(l1, stake.key, StakeState.Encode(record.(stakedAt := now))))
  }
}
