/** `stake`: puts one NFT of a registered collection into escrow. Checks the
    NFT's metadata against the registry, creates the Stake account and the
    escrow token account at their derived addresses, moves exactly one token
    into escrow and writes the Stake record. */
module StakeHandler {
  import opened Results
  import opened Bytes
  import opened Keys
  import opened Errors
  import opened Accounts
  import opened Programs
  import StakeDetailsState
  import StakeState

  /** Positions in the instruction's account list. */
  const USER: nat := 0
  const NFT_MINT: nat := 1
  const NFT_METADATA: nat := 2
  const USER_TOKEN: nat := 3
  const USER_REWARD: nat := 4
  const STAKE_DETAILS: nat := 5
  const STAKE: nat := 6
  const STAKE_ATA: nat := 7
  const TOKEN_PROGRAM: nat := 8
  const ATA_PROGRAM: nat := 9
  const SYSTEM_PROGRAM_ACCOUNT: nat := 10
  const ACCOUNT_COUNT: nat := 11

  /** The flag and owner checks made while reading the account list, all
      reported as `InvalidAccountData`. */
  predicate AccountChecksOk(env: Env, l: Ledger, accounts: seq<AccountMeta>)
    requires |accounts| >= ACCOUNT_COUNT
  {
    && accounts[USER].isSigner && accounts[USER].isWritable
    && accounts[USER_TOKEN].isWritable
    && Get(l, accounts[STAKE_DETAILS].key).owner == env.programId
    && accounts[STAKE].isWritable
    && accounts[STAKE_ATA].isWritable
  }

  /** The account checks passed and the metadata account holds metadata. */
  predicate MetadataRead(env: Env, l: Ledger, accounts: seq<AccountMeta>) {
    && |accounts| >= ACCOUNT_COUNT
    && AccountChecksOk(env, l, accounts)
    && Get(l, accounts[NFT_METADATA].key).data.MetadataData?
  }

  function MetadataOf(l: Ledger, accounts: seq<AccountMeta>): Metadata
    requires |accounts| >= ACCOUNT_COUNT && Get(l, accounts[NFT_METADATA].key).data.MetadataData?
  {
    Get(l, accounts[NFT_METADATA].key).data.metadata
  }

  /** ... the metadata names a collection and the registry record decodes. */
  predicate RegistryRead(env: Env, l: Ledger, accounts: seq<AccountMeta>) {
    && MetadataRead(env, l, accounts)
    && MetadataOf(l, accounts).collection.Some?
    && StakeDetailsState.Decode(RawBytes(Get(l, accounts[STAKE_DETAILS].key))).Ok?
  }

  function RegistryOf(l: Ledger, accounts: seq<AccountMeta>): StakeDetailsState.StakeDetails
    requires |accounts| >= ACCOUNT_COUNT
    requires StakeDetailsState.Decode(RawBytes(Get(l, accounts[STAKE_DETAILS].key))).Ok?
  {
    StakeDetailsState.Decode(RawBytes(Get(l, accounts[STAKE_DETAILS].key))).value
  }

  /** The NFT is authentic for this registry: its metadata points at the NFT
      mint and claims the registry's collection, verified. */
  predicate NftAuthentic(env: Env, l: Ledger, accounts: seq<AccountMeta>) {
    && RegistryRead(env, l, accounts)
    && MetadataOf(l, accounts).mint == accounts[NFT_MINT].key
    && MetadataOf(l, accounts).collection.value.key == RegistryOf(l, accounts).collectionMint
    && MetadataOf(l, accounts).collection.value.verified
  }

  /** The Stake account address of the caller, the NFT and the registry. */
  function StakeAddress(env: Env, accounts: seq<AccountMeta>): Option<ProgramAddress>
    requires |accounts| >= ACCOUNT_COUNT
  {
    FindProgramAddress(env, StakeSeeds(accounts[STAKE_DETAILS].key, accounts[NFT_MINT].key, accounts[USER].key), env.programId)
  }

  /** What the validation stage hands to the execution stage. */
  datatype StakeContext = StakeContext(
    user: Pubkey, nftMint: Pubkey, userToken: Pubkey, userReward: Pubkey, details: Pubkey,
    stake: Pubkey, stakeAta: Pubkey, tokenProgram: Pubkey, ataProgram: Pubkey, systemProgram: Pubkey,
    registry: StakeDetailsState.StakeDetails, stakeBump: byte)

  /** The checks of the handler up to and including the Stake address check,
      in source order. Nothing is written before they all pass. */
  function ValidateStake(env: Env, l: Ledger, accounts: seq<AccountMeta>): (r: Result<StakeContext, ProgramError>)
    ensures |accounts| >= ACCOUNT_COUNT && !AccountChecksOk(env, l, accounts) ==> r == Err(InvalidAccountData)
    // The metadata checks, in the order the handler makes them.
    ensures MetadataRead(env, l, accounts) && MetadataOf(l, accounts).collection.None?
            ==> r == Err(ToProgramError(NoCollectionSet))
    ensures RegistryRead(env, l, accounts) && MetadataOf(l, accounts).mint != accounts[NFT_MINT].key
            ==> r == Err(ToProgramError(InvalidMetadataAccount))
    ensures RegistryRead(env, l, accounts) && MetadataOf(l, accounts).mint == accounts[NFT_MINT].key
            && MetadataOf(l, accounts).collection.value.key != RegistryOf(l, accounts).collectionMint
            ==> r == Err(ToProgramError(CollectionMintMismatch))
    ensures RegistryRead(env, l, accounts) && MetadataOf(l, accounts).mint == accounts[NFT_MINT].key
            && MetadataOf(l, accounts).collection.value.key == RegistryOf(l, accounts).collectionMint
            && !MetadataOf(l, accounts).collection.value.verified
            ==> r == Err(ToProgramError(NftNotVerified))
    ensures NftAuthentic(env, l, accounts) && Get(l, accounts[USER_TOKEN].key).data.TokenData?
            && Get(l, accounts[USER_TOKEN].key).data.token.amount == 0
            ==> r == Err(ToProgramError(NftEmpty))
    // A substituted Stake account is rejected.
    ensures |accounts| >= ACCOUNT_COUNT && StakeAddress(env, accounts).Some?
            && StakeAddress(env, accounts).value.key != accounts[STAKE].key
            ==> r.Err?
    ensures r.Ok? ==>
              && NftAuthentic(env, l, accounts)
              && TokenAmount(l, accounts[USER_TOKEN].key) >= 1
              && StakeAddress(env, accounts).Some?
              && StakeAddress(env, accounts).value.key == accounts[STAKE].key
              && r.value == StakeContext(
                   accounts[USER].key, accounts[NFT_MINT].key, accounts[USER_TOKEN].key, accounts[USER_REWARD].key,
                   accounts[STAKE_DETAILS].key, accounts[STAKE].key, accounts[STAKE_ATA].key,
                   accounts[TOKEN_PROGRAM].key, accounts[ATA_PROGRAM].key, accounts[SYSTEM_PROGRAM_ACCOUNT].key,
                   RegistryOf(l, accounts), StakeAddress(env, accounts).value.bump)
  {
    var user :- NextAccount(accounts, USER);
    :- Need(user.isSigner && user.isWritable, InvalidAccountData);
    var nftMint :- NextAccount(accounts, NFT_MINT);
    var metadataAccount :- NextAccount(accounts, NFT_METADATA);
    var userToken :- NextAccount(accounts, USER_TOKEN);
    :- Need(userToken.isWritable, InvalidAccountData);
    var userReward :- NextAccount(accounts, USER_REWARD);
    var details :- NextAccount(accounts, STAKE_DETAILS);
    :- Need(Get(l, details.key).owner == env.programId, InvalidAccountData);
    var stake :- NextAccount(accounts, STAKE);
    :- Need(stake.isWritable, InvalidAccountData);
    var stakeAta :- NextAccount(accounts, STAKE_ATA);
    :- Need(stakeAta.isWritable, InvalidAccountData);
    var tokenProgram :- NextAccount(accounts, TOKEN_PROGRAM);
    var ataProgram :- NextAccount(accounts, ATA_PROGRAM);
    var systemProgram :- NextAccount(accounts, SYSTEM_PROGRAM_ACCOUNT);
    var metadata :- UnpackMetadata(Get(l, metadataAccount.key));
    :- Need(metadata.collection.Some?, ToProgramError(NoCollectionSet));
    var collection := metadata.collection.value;
    var registry :- StakeDetailsState.Decode(RawBytes(Get(l, details.key)));
    :- Need(metadata.mint == nftMint.key, ToProgramError(InvalidMetadataAccount));
    :- Need(registry.collectionMint == collection.key, ToProgramError(CollectionMintMismatch));
    :- Need(collection.verified, ToProgramError(NftNotVerified));
    var userTokenData :- UnpackToken(Get(l, userToken.key));
    :- Need(userTokenData.amount != 0, ToProgramError(NftEmpty));
    var pa :- FindPda(env, StakeSeeds(details.key, nftMint.key, user.key), env.programId);
    :- Need(pa.key == stake.key, InvalidAccountData);
    Ok(StakeContext(user.key, nftMint.key, userToken.key, userReward.key, details.key, stake.key, stakeAta.key,
                    tokenProgram.key, ataProgram.key, systemProgram.key, registry, pa.bump))
  }

  /** The signers of the calls made as the Stake account. */
  function StakeSigners(env: Env, signers: set<Pubkey>, c: StakeContext): set<Pubkey> {
    signers + PdaSigner(env, WithBump(StakeSeeds(c.details, c.nftMint, c.user), c.stakeBump))
  }

  /** The first effects: create the Stake account, check the escrow address,
      create the escrow. */
  function CreateStakeAndEscrow(env: Env, l: Ledger, signers: set<Pubkey>, c: StakeContext): (r: Result<Ledger, ProgramError>)
    ensures AssociatedTokenAddress(env, c.stake, c.nftMint, c.tokenProgram).Some?
            && AssociatedTokenAddress(env, c.stake, c.nftMint, c.tokenProgram).value != c.stakeAta
            ==> r.Err?
    ensures r.Ok? ==>
              var escrowBefore := Get(l, c.stakeAta).lamports;
              var topUp := TopUp(escrowBefore, env.minimumBalance(TOKEN_ACCOUNT_LEN));
              && c.tokenProgram == env.tokenProgram
              && AssociatedTokenAddress(env, c.stake, c.nftMint, env.tokenProgram) == Some(c.stakeAta)
              && Get(l, c.stake) == EMPTY
              && Get(l, c.stakeAta).owner == SYSTEM_PROGRAM && HasNoData(Get(l, c.stakeAta))
              && c.stakeAta != c.stake
              && Get(r.value, c.stake) == Account(env.programId, env.minimumBalance(StakeState.LEN), Raw(Zeros(StakeState.LEN)))
              && Get(r.value, c.stakeAta).owner == env.tokenProgram
              && Get(r.value, c.stakeAta).data == TokenData(TokenAccount(c.nftMint, c.stake, 0))
              && Get(r.value, c.stakeAta).lamports >= env.minimumBalance(TOKEN_ACCOUNT_LEN)
              && (c.user != c.stakeAta ==>
                    && Get(r.value, c.stakeAta).lamports == escrowBefore + topUp
                    && Get(l, c.user).lamports >= env.minimumBalance(StakeState.LEN) + topUp
                    && Get(r.value, c.user)
                       == Get(l, c.user).(lamports := Get(l, c.user).lamports - env.minimumBalance(StakeState.LEN) - topUp))
              && UnchangedExcept(l, r.value, {c.user, c.stake, c.stakeAta})
  {
    // create the Stake account, signing for it with its seeds
    var pdaSigners := StakeSigners(env, signers, c);
    var l1 :- CreateAccount(l, c.user, c.stake, env.minimumBalance(StakeState.LEN), StakeState.LEN,
                            env.programId, pdaSigners);
    // only now is the escrow address checked, against the supplied associated-token program
    var escrowPa :- FindPda(env, AtaSeeds(c.stake, c.tokenProgram, c.nftMint), c.ataProgram);
    if escrowPa.key != c.stakeAta then Err(InvalidAccountData)
    else CreateAssociatedTokenAccount(env, l1, c.user, c.stakeAta, c.stake, c.nftMint,
                                      c.tokenProgram, c.ataProgram, pdaSigners)
  }

  /** The effects: create the Stake account, check the escrow address, create
      the escrow, move one token into it, write the record. */
  function ExecuteStake(env: Env, l: Ledger, signers: set<Pubkey>, c: StakeContext, now: i64): (r: Result<Ledger, ProgramError>)
    // A substituted escrow account is rejected.
    ensures AssociatedTokenAddress(env, c.stake, c.nftMint, c.tokenProgram).Some?
            && AssociatedTokenAddress(env, c.stake, c.nftMint, c.tokenProgram).value != c.stakeAta
            ==> r.Err?
    ensures r.Ok? ==>
              var escrowBefore := Get(l, c.stakeAta).lamports;
              var topUp := TopUp(escrowBefore, env.minimumBalance(TOKEN_ACCOUNT_LEN));
              && AssociatedTokenAddress(env, c.stake, c.nftMint, env.tokenProgram) == Some(c.stakeAta)
              // the Stake address was unused; the escrow address may already
              // hold lamports, but no data and no other owner
              && Get(l, c.stake) == EMPTY
              && Get(l, c.stakeAta).owner == SYSTEM_PROGRAM && HasNoData(Get(l, c.stakeAta))
              // exactly one token moves from the caller into a rent-exempt escrow
              && c.userToken != c.stakeAta
              && TokenAmount(r.value, c.userToken) == TokenAmount(l, c.userToken) - 1
              && Get(r.value, c.stakeAta).owner == env.tokenProgram
              && Get(r.value, c.stakeAta).data == TokenData(TokenAccount(c.nftMint, c.stake, 1))
              && Get(r.value, c.stakeAta).lamports >= env.minimumBalance(TOKEN_ACCOUNT_LEN)
              // the Stake record, stamped with the current time
              && Get(r.value, c.stake)
                 == Account(env.programId, env.minimumBalance(StakeState.LEN),
                            Raw(StakeState.Encode(StakeState.Stake(
                              c.details, c.nftMint, c.registry.rewardTokenMint, c.userReward, now))))
              // the caller pays the Stake account's rent and what the escrow
              // lacks of its own; the escrow keeps what it already held
              && (c.user != c.stakeAta ==>
                    && Get(r.value, c.stakeAta).lamports == escrowBefore + topUp
                    && Get(r.value, c.user).lamports
                       == Get(l, c.user).lamports - env.minimumBalance(StakeState.LEN) - topUp)
              && UnchangedExcept(l, r.value, {c.user, c.userToken, c.stake, c.stakeAta})
  {
    if c.systemProgram != SYSTEM_PROGRAM then Err(CalleeFailed(ProgramNotPassed))
    else
    var l2 :- CreateStakeAndEscrow(env, l, signers, c);
    // move one token into escrow, signed by the caller (the associated-token
    // program has already insisted on the real token program)
    if c.tokenProgram != env.tokenProgram then Err(IncorrectProgramId)
    else
      var l3 :- Transfer(env, l2, c.userToken, c.stakeAta, c.user, 1, signers);
      var record := StakeState.Stake(c.details, c.nftMint, c.registry.rewardTokenMint, c.userReward, now);
      Ok(WriteData(l3, c.stake, StakeState.Encode(record)))
  }

  function StakeNft(env: Env, l: Ledger, accounts: seq<AccountMeta>, now: i64): (r: Result<Ledger, ProgramError>)
    ensures ValidateStake(env, l, accounts).Err? ==> r == Err(ValidateStake(env, l, accounts).error)
    ensures r.Ok? ==>
              && |accounts| >= ACCOUNT_COUNT
              && NftAuthentic(env, l, accounts)
              && StakeAddress(env, accounts).Some?
              && StakeAddress(env, accounts).value.key == accounts[STAKE].key
              && AssociatedTokenAddress(env, accounts[STAKE].key, accounts[NFT_MINT].key, env.tokenProgram)
                 == Some(accounts[STAKE_ATA].key)
    ensures r.Ok? ==>
              var user := accounts[USER].key;
              var userToken := accounts[USER_TOKEN].key;
              var stake := accounts[STAKE].key;
              var escrow := accounts[STAKE_ATA].key;
              var escrowBefore := Get(l, escrow).lamports;
              var topUp := TopUp(escrowBefore, env.minimumBalance(TOKEN_ACCOUNT_LEN));
              && Get(l, stake) == EMPTY
              && Get(l, escrow).owner == SYSTEM_PROGRAM && HasNoData(Get(l, escrow))
              && userToken != escrow
              && TokenAmount(l, userToken) >= 1
              && TokenAmount(r.value, userToken) == TokenAmount(l, userToken) - 1
              && Get(r.value, escrow).owner == env.tokenProgram
              && Get(r.value, escrow).data == TokenData(TokenAccount(accounts[NFT_MINT].key, stake, 1))
              && Get(r.value, escrow).lamports >= env.minimumBalance(TOKEN_ACCOUNT_LEN)
              && Get(r.value, stake)
                 == Account(env.programId, env.minimumBalance(StakeState.LEN),
                            Raw(StakeState.Encode(StakeState.Stake(
                              accounts[STAKE_DETAILS].key, accounts[NFT_MINT].key,
                              RegistryOf(l, accounts).rewardTokenMint, accounts[USER_REWARD].key, now))))
              && (user != escrow ==>
                    && Get(r.value, escrow).lamports == escrowBefore + topUp
                    && Get(r.value, user).lamports == Get(l, user).lamports - env.minimumBalance(StakeState.LEN) - topUp)
              && UnchangedExcept(l, r.value, {user, userToken, stake, escrow})
  {
    var c :- ValidateStake(env, l, accounts);
    ExecuteStake(env, l, Signers(accounts), c, now)
  }

  /** The metadata account is the one the Metaplex program keeps for the NFT
      mint: owned by that program and at its derived address. */
  predicate MetadataGenuine(env: Env, l: Ledger, accounts: seq<AccountMeta>) {
    && |accounts| >= ACCOUNT_COUNT
    && Get(l, accounts[NFT_METADATA].key).owner == env.metadataProgram
    && var pa := FindProgramAddress(env, MetadataSeeds(env.metadataProgram, accounts[NFT_MINT].key), env.metadataProgram);
       pa.Some? && pa.value.key == accounts[NFT_METADATA].key
  }

  /** The handler as written never looks at who owns the metadata account or
      where it lives: handing the same metadata to any other owner, such as a
      program of the caller's that wrote metadata-shaped data, changes nothing. */
  lemma ForgedMetadataAccepted(env: Env, l: Ledger, accounts: seq<AccountMeta>, forger: Pubkey, now: i64)
    requires |accounts| >= ACCOUNT_COUNT
    requires accounts[NFT_METADATA].key != accounts[STAKE_DETAILS].key
    ensures var meta := accounts[NFT_METADATA].key;
            var forged := l[meta := Get(l, meta).(owner := forger)];
            && Get(forged, meta).owner == forger
            && ValidateStake(env, forged, accounts) == ValidateStake(env, l, accounts)
            // ... while the corrected handler turns the forgery away
            && (forger != env.metadataProgram ==> StakeNftChecked(env, forged, accounts, now).Err?)
  {
    var meta := accounts[NFT_METADATA].key;
    var forged := l[meta := Get(l, meta).(owner := forger)];
    assert forall k :: Get(forged, k).data == Get(l, k).data;
    assert Get(forged, accounts[STAKE_DETAILS].key) == Get(l, accounts[STAKE_DETAILS].key);
  }

  /** Validation with the missing metadata checks added. */
  function ValidateStakeChecked(env: Env, l: Ledger, accounts: seq<AccountMeta>): (r: Result<StakeContext, ProgramError>)
    ensures r.Ok? ==> MetadataGenuine(env, l, accounts) && r == ValidateStake(env, l, accounts)
    ensures MetadataGenuine(env, l, accounts) ==> r == ValidateStake(env, l, accounts)
    ensures ValidateStake(env, l, accounts).Ok? && !MetadataGenuine(env, l, accounts) ==> r == Err(InvalidAccountData)
  {
    var c :- ValidateStake(env, l, accounts);
    if !MetadataGenuine(env, l, accounts) then Err(InvalidAccountData) else Ok(c)
  }

  /** `stake` with the metadata checks: only an NFT whose metadata is the
      Metaplex record of its mint can be staked; otherwise it behaves as
      written. */
  function StakeNftChecked(env: Env, l: Ledger, accounts: seq<AccountMeta>, now: i64): (r: Result<Ledger, ProgramError>)
    ensures r.Ok? ==> MetadataGenuine(env, l, accounts) && NftAuthentic(env, l, accounts)
    ensures MetadataGenuine(env, l, accounts) ==> r == StakeNft(env, l, accounts, now)
    ensures StakeNft(env, l, accounts, now).Err? ==> r.Err?
  {
    var c :- ValidateStakeChecked(env, l, accounts);
    ExecuteStake(env, l, Signers(accounts), c, now)
  }
}
