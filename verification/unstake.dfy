/** `unstake`: returns the escrowed NFT to the caller, pays the reward accrued
    since the Stake record's checkpoint, closes the escrow token account and
    then the Stake account, sweeping the lamports of both to the caller. */
module UnstakeHandler {
  import opened Results
  import opened Bytes
  import opened Keys
  import opened Errors
  import opened Accounts
  import opened Programs
  import opened Rewards
  import StakeDetailsState
  import StakeState

  /** Positions in the instruction's account list. */
  const USER: nat := 0
  const USER_NFT: nat := 1
  const USER_REWARD: nat := 2
  const STAKE_DETAILS: nat := 3
  const STAKE: nat := 4
  const STAKE_NFT: nat := 5
  const NFT_MINT: nat := 6
  const REWARD_MINT: nat := 7
  const TOKEN_PROGRAM: nat := 8
  const ACCOUNT_COUNT: nat := 9

  /** The signer, writable and owner checks made while reading the list. */
  predicate AccountChecksOk(env: Env, l: Ledger, accounts: seq<AccountMeta>)
    requires |accounts| >= ACCOUNT_COUNT
  {
    && accounts[USER].isSigner && accounts[USER].isWritable
    && accounts[USER_NFT].isWritable
    && accounts[USER_REWARD].isWritable
    && Get(l, accounts[STAKE_DETAILS].key).owner == env.programId
    && accounts[STAKE].isWritable
    && Get(l, accounts[STAKE].key).owner == env.programId
    && accounts[STAKE_NFT].isWritable
    && accounts[REWARD_MINT].isWritable
  }

  function StakeAddress(env: Env, accounts: seq<AccountMeta>): Option<ProgramAddress>
    requires |accounts| >= ACCOUNT_COUNT
  {
    FindProgramAddress(env, StakeSeeds(accounts[STAKE_DETAILS].key, accounts[NFT_MINT].key, accounts[USER].key), env.programId)
  }

  function EscrowAddress(env: Env, accounts: seq<AccountMeta>): Option<Pubkey>
    requires |accounts| >= ACCOUNT_COUNT
  {
    AssociatedTokenAddress(env, accounts[STAKE].key, accounts[NFT_MINT].key, accounts[TOKEN_PROGRAM].key)
  }

  /** The account checks passed and the Stake account is the caller's. */
  predicate StakeFound(env: Env, l: Ledger, accounts: seq<AccountMeta>) {
    && |accounts| >= ACCOUNT_COUNT
    && AccountChecksOk(env, l, accounts)
    && StakeAddress(env, accounts).Some?
    && StakeAddress(env, accounts).value.key == accounts[STAKE].key
  }

  /** What the validation stage hands to the execution stage. */
  datatype UnstakeContext = UnstakeContext(
    user: Pubkey, userNft: Pubkey, userReward: Pubkey, details: Pubkey, stake: Pubkey, escrow: Pubkey,
    nftMint: Pubkey, rewardMint: Pubkey, tokenProgram: Pubkey,
    stakeBump: byte, escrowAmount: u64, record: StakeState.Stake, registry: StakeDetailsState.StakeDetails)

  /** The checks of the handler, in source order, up to reading the records. */
  function ValidateUnstake(env: Env, l: Ledger, accounts: seq<AccountMeta>): (r: Result<UnstakeContext, ProgramError>)
    // Only the caller's own signature is reported as a missing signature.
    ensures |accounts| >= 1 && !(accounts[USER].isSigner && accounts[USER].isWritable)
            ==> r == Err(MissingRequiredSignature)
    ensures |accounts| >= ACCOUNT_COUNT && accounts[USER].isSigner && accounts[USER].isWritable
            && !AccountChecksOk(env, l, accounts)
            ==> r == Err(InvalidAccountData)
    ensures |accounts| >= ACCOUNT_COUNT && AccountChecksOk(env, l, accounts)
            && StakeAddress(env, accounts).Some? && StakeAddress(env, accounts).value.key != accounts[STAKE].key
            ==> r == Err(InvalidAccountData)
    ensures StakeFound(env, l, accounts) && HasNoData(Get(l, accounts[STAKE].key))
            ==> r == Err(ToProgramError(AccountNotInitialized))
    // The escrow must be the Stake account's associated token account, and not empty.
    ensures StakeFound(env, l, accounts) && !HasNoData(Get(l, accounts[STAKE].key))
            && EscrowAddress(env, accounts).Some? && EscrowAddress(env, accounts).value != accounts[STAKE_NFT].key
            ==> r == Err(InvalidAccountData)
    ensures StakeFound(env, l, accounts) && !HasNoData(Get(l, accounts[STAKE].key))
            && EscrowAddress(env, accounts) == Some(accounts[STAKE_NFT].key)
            && Get(l, accounts[STAKE_NFT].key).data.TokenData?
            && Get(l, accounts[STAKE_NFT].key).data.token.amount == 0
            ==> r == Err(ToProgramError(NoNFTFound))
    // The owner re-check at the end of the list can never fire.
    ensures r.Err? ==> r.error != InvalidAccountOwner
    ensures r.Ok? ==>
              && StakeFound(env, l, accounts)
              && EscrowAddress(env, accounts) == Some(accounts[STAKE_NFT].key)
              && Get(l, accounts[STAKE].key).data.Raw?
              && StakeState.Decode(RawBytes(Get(l, accounts[STAKE].key))).Ok?
              && StakeDetailsState.Decode(RawBytes(Get(l, accounts[STAKE_DETAILS].key))).Ok?
              && Get(l, accounts[STAKE_NFT].key).data.TokenData?
              && r.value == UnstakeContext(
                   accounts[USER].key, accounts[USER_NFT].key, accounts[USER_REWARD].key,
                   accounts[STAKE_DETAILS].key, accounts[STAKE].key, accounts[STAKE_NFT].key,
                   accounts[NFT_MINT].key, accounts[REWARD_MINT].key, accounts[TOKEN_PROGRAM].key,
                   StakeAddress(env, accounts).value.bump,
                   Get(l, accounts[STAKE_NFT].key).data.token.amount,
                   StakeState.Decode(RawBytes(Get(l, accounts[STAKE].key))).value,
                   StakeDetailsState.Decode(RawBytes(Get(l, accounts[STAKE_DETAILS].key))).value)
              && r.value.escrowAmount > 0
  {
    var user :- NextAccount(accounts, USER);
    :- Need(user.isSigner && user.isWritable, MissingRequiredSignature);
    var userNft :- NextAccount(accounts, USER_NFT);
    :- Need(userNft.isWritable, InvalidAccountData);
    var userReward :- NextAccount(accounts, USER_REWARD);
    :- Need(userReward.isWritable, InvalidAccountData);
    var details :- NextAccount(accounts, STAKE_DETAILS);
    :- Need(Get(l, details.key).owner == env.programId, InvalidAccountData);
    var stake :- NextAccount(accounts, STAKE);
    :- Need(stake.isWritable, InvalidAccountData);
    :- Need(Get(l, stake.key).owner == env.programId, InvalidAccountData);
    var escrow :- NextAccount(accounts, STAKE_NFT);
    :- Need(escrow.isWritable, InvalidAccountData);
    var nftMint :- NextAccount(accounts, NFT_MINT);
    var rewardMint :- NextAccount(accounts, REWARD_MINT);
    :- Need(rewardMint.isWritable, InvalidAccountData);
    var tokenProgram :- NextAccount(accounts, TOKEN_PROGRAM);
    // the same owner test as above, with a different error
    if Get(l, stake.key).owner != env.programId then Err(InvalidAccountOwner)
    else
      var pa :- FindPda(env, StakeSeeds(details.key, nftMint.key, user.key), env.programId);
      :- Need(pa.key == stake.key, InvalidAccountData);
      :- Need(!HasNoData(Get(l, stake.key)), ToProgramError(AccountNotInitialized));
      var escrowKey :- FindAta(env, stake.key, nftMint.key, tokenProgram.key);
      :- Need(escrowKey == escrow.key, InvalidAccountData);
      var escrowData :- UnpackToken(Get(l, escrow.key));
      :- Need(escrowData.amount != 0, ToProgramError(NoNFTFound));
      var record :- StakeState.Decode(RawBytes(Get(l, stake.key)));
      var registry :- StakeDetailsState.Decode(RawBytes(Get(l, details.key)));
      Ok(UnstakeContext(user.key, userNft.key, userReward.key, details.key, stake.key, escrow.key,
                        nftMint.key, rewardMint.key, tokenProgram.key, pa.bump, escrowData.amount, record, registry))
  }

  /** The first effects: the NFT goes back to the caller and the reward is
      minted to the caller's reward account. */
  function ReturnNftAndReward(env: Env, l: Ledger, signers: set<Pubkey>, c: UnstakeContext, now: i64)
    : (r: Result<Ledger, ProgramError>)
    requires Get(l, c.stake).data.Raw?
    requires TokenAmount(l, c.escrow) == c.escrowAmount > 0
    ensures r.Err? ==> r.error != InvalidAccountOwner
    ensures r.Ok? ==>
              var reward := RewardAmount(now, c.record.stakedAt);
              && c.tokenProgram == env.tokenProgram
              && reward.Ok?
              && c.stake != c.userNft && c.stake != c.userReward
              // the whole escrow balance moves to the caller's token account
              && (c.escrow != c.userNft ==>
                    && Get(r.value, c.escrow).data.TokenData?
                    && Get(r.value, c.escrow).data.token.amount == (if c.escrow == c.userReward then reward.value else 0)
                    && TokenAmount(r.value, c.userNft)
                       == TokenAmount(l, c.userNft) + c.escrowAmount + (if c.userNft == c.userReward then reward.value else 0))
              // ... unless it is its own destination, when it keeps its balance
              && (c.escrow == c.userNft ==> TokenAmount(r.value, c.escrow) >= c.escrowAmount)
              && (c.userReward != c.userNft && c.userReward != c.escrow ==>
                    TokenAmount(r.value, c.userReward) == TokenAmount(l, c.userReward) + reward.value)
              // token movements leave every balance of lamports alone
              && Get(r.value, c.user).lamports == Get(l, c.user).lamports
              && Get(r.value, c.escrow).lamports == Get(l, c.escrow).lamports
              && Get(r.value, c.stake) == Get(l, c.stake)
              && UnchangedExcept(l, r.value, {c.userNft, c.userReward, c.rewardMint, c.escrow})
  {
    // `transfer` builds an instruction only for the token program
    if c.tokenProgram != env.tokenProgram then Err(IncorrectProgramId)
    else
    // the escrow's authority signs with the recorded NFT mint and the found bump
    var l1 :- Transfer(env, l, c.escrow, c.userNft, c.stake, c.escrowAmount, StakeSigners(env, signers, c));
    var reward :- RewardAmount(now, c.record.stakedAt);
    var mint :- UnpackMint(Get(l1, c.rewardMint));
    var registrySigners := signers + PdaSigner(env, WithBump(
      StakeDetailsSeeds(c.registry.creator, c.registry.collectionMint), c.registry.bumpSeed));
    MintTo(env, l1, c.rewardMint, c.userReward, c.details, reward, mint.decimals, registrySigners)
  }

  /** The signers of the calls made as the Stake account. */
  function StakeSigners(env: Env, signers: set<Pubkey>, c: UnstakeContext): set<Pubkey> {
    signers + PdaSigner(env, WithBump(StakeSeeds(c.details, c.record.nftMint, c.user), c.stakeBump))
  }

  /** The last effects: the escrow is closed to the caller, then the Stake
      account's lamports are swept to the caller and the account emptied. */
  function CloseEscrowAndStake(env: Env, l: Ledger, signers: set<Pubkey>, c: UnstakeContext)
    : (r: Result<Ledger, ProgramError>)
    requires Get(l, c.stake).data.Raw?
    ensures r.Err? ==> r.error != InvalidAccountOwner
    // Once the escrow is closed, a sum of lamports past u64 is reported as such.
    ensures CloseAccount(env, l, c.escrow, c.user, c.stake, StakeSigners(env, signers, c)).Ok?
            && Get(l, c.user).lamports + Get(l, c.escrow).lamports + Get(l, c.stake).lamports >= U64_MODULUS
            ==> r == Err(ToProgramError(StakeAccountCloseError))
    ensures r.Ok? ==>
              && c.user != c.escrow && c.user != c.stake
              && Get(r.value, c.escrow) == EMPTY
              && Get(r.value, c.stake) == EMPTY
              && Get(l, c.user).lamports + Get(l, c.escrow).lamports + Get(l, c.stake).lamports < U64_MODULUS
              && Get(r.value, c.user)
                 == Get(l, c.user).(lamports := Get(l, c.user).lamports + Get(l, c.escrow).lamports + Get(l, c.stake).lamports)
              && UnchangedExcept(l, r.value, {c.user, c.escrow, c.stake})
  {
    var l1 :- CloseAccount(env, l, c.escrow, c.user, c.stake, StakeSigners(env, signers, c));
    var userLamports := Get(l1, c.user).lamports;
    var stakeLamports := Get(l1, c.stake).lamports;
    if userLamports + stakeLamports >= U64_MODULUS then Err(ToProgramError(StakeAccountCloseError))
    // the caller's lamports are still mutably borrowed when the Stake account's are
    else if c.user == c.stake then Err(Panic)
    else
      var l2 := l1[c.user := Get(l1, c.user).(lamports := userLamports + stakeLamports)];
      Ok(l2[c.stake := EMPTY])
  }

  /** The effects, in source order. */
  function ExecuteUnstake(env: Env, l: Ledger, signers: set<Pubkey>, c: UnstakeContext, now: i64): (r: Result<Ledger, ProgramError>)
    requires Get(l, c.stake).data.Raw?
    requires TokenAmount(l, c.escrow) == c.escrowAmount > 0
    ensures r.Err? ==> r.error != InvalidAccountOwner
    ensures ReturnNftAndReward(env, l, signers, c, now).Ok?
            && CloseAccount(env, ReturnNftAndReward(env, l, signers, c, now).value, c.escrow, c.user, c.stake,
                            StakeSigners(env, signers, c)).Ok?
            && Get(l, c.user).lamports + Get(l, c.escrow).lamports + Get(l, c.stake).lamports >= U64_MODULUS
            ==> r == Err(ToProgramError(StakeAccountCloseError))
    ensures r.Ok? ==>
              var reward := RewardAmount(now, c.record.stakedAt);
              && c.tokenProgram == env.tokenProgram
              && reward.Ok?
              && c.escrow != c.userNft
              && TokenAmount(r.value, c.userNft)
                 == TokenAmount(l, c.userNft) + c.escrowAmount + (if c.userNft == c.userReward then reward.value else 0)
              && (c.userReward != c.userNft && c.userReward != c.escrow ==>
                    TokenAmount(r.value, c.userReward) == TokenAmount(l, c.userReward) + reward.value)
              && Get(r.value, c.escrow) == EMPTY
              && Get(r.value, c.stake) == EMPTY
              && c.user != c.escrow && c.user != c.stake
              && Get(r.value, c.user).lamports
                 == Get(l, c.user).lamports + Get(l, c.escrow).lamports + Get(l, c.stake).lamports
              && UnchangedExcept(l, r.value, {c.user, c.userNft, c.userReward, c.rewardMint, c.escrow, c.stake})
  {
    var l1 :- ReturnNftAndReward(env, l, signers, c, now);
    CloseEscrowAndStake(env, l1, signers, c)
  }

  function Unstake(env: Env, l: Ledger, accounts: seq<AccountMeta>, now: i64): (r: Result<Ledger, ProgramError>)
    ensures ValidateUnstake(env, l, accounts).Err? ==> r == Err(ValidateUnstake(env, l, accounts).error)
    ensures r.Err? ==> r.error != InvalidAccountOwner
    ensures r.Ok? ==>
              && StakeFound(env, l, accounts)
              && EscrowAddress(env, accounts) == Some(accounts[STAKE_NFT].key)
              && accounts[TOKEN_PROGRAM].key == env.tokenProgram
              && StakeState.Decode(RawBytes(Get(l, accounts[STAKE].key))).Ok?
    ensures r.Ok? ==>
              var user := accounts[USER].key;
              var userNft := accounts[USER_NFT].key;
              var userReward := accounts[USER_REWARD].key;
              var stake := accounts[STAKE].key;
              var escrow := accounts[STAKE_NFT].key;
              var record := StakeState.Decode(RawBytes(Get(l, stake))).value;
              var reward := RewardAmount(now, record.stakedAt);
              && reward.Ok?
              && escrow != userNft
              && TokenAmount(l, escrow) > 0
              && TokenAmount(r.value, userNft)
                 == TokenAmount(l, userNft) + TokenAmount(l, escrow) + (if userNft == userReward then reward.value else 0)
              && (userReward != userNft && userReward != escrow ==>
                    TokenAmount(r.value, userReward) == TokenAmount(l, userReward) + reward.value)
              && Get(r.value, escrow) == EMPTY
              && Get(r.value, stake) == EMPTY
              // the caller receives the lamports of both closed accounts
              && user != escrow && user != stake
              && Get(r.value, user).lamports == Get(l, user).lamports + Get(l, escrow).lamports + Get(l, stake).lamports
              && UnchangedExcept(l, r.value, {user, userNft, userReward, accounts[REWARD_MINT].key, escrow, stake})
  {
    var c :- ValidateUnstake(env, l, accounts);
    ExecuteUnstake(env, l, Signers(accounts), c, now)
  }

  /** When the NFT and the reward have gone out and the escrow is closed, a
      lamport sum past u64 in the final sweep makes the whole instruction
      fail with `StakeAccountCloseError`. */
  lemma OverflowingSweepFails(env: Env, l: Ledger, accounts: seq<AccountMeta>, now: i64)
    requires ValidateUnstake(env, l, accounts).Ok?
    requires var c := ValidateUnstake(env, l, accounts).value;
             var signers := Signers(accounts);
             && ReturnNftAndReward(env, l, signers, c, now).Ok?
             && CloseAccount(env, ReturnNftAndReward(env, l, signers, c, now).value, c.escrow, c.user, c.stake,
                             StakeSigners(env, signers, c)).Ok?
             && Get(l, c.user).lamports + Get(l, c.escrow).lamports + Get(l, c.stake).lamports >= U64_MODULUS
    ensures Unstake(env, l, accounts, now) == Err(ToProgramError(StakeAccountCloseError))
  {
  }
}
