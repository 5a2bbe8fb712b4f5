/** `init_staking`: registers a collection. Creates the registry
    (StakeDetails) account at the address derived from the caller and the
    collection, writes the record, and hands the reward mint's minting
    authority to that account. */
module Init {
  import opened Results
  import opened Bytes
  import opened Keys
  import opened Errors
  import opened Accounts
  import opened Programs
  import StakeDetailsState

  /** Positions in the instruction's account list. */
  const USER: nat := 0
  const REWARD_MINT: nat := 1
  const COLLECTION_MINT: nat := 2
  const STAKE_DETAILS: nat := 3
  const TOKEN_PROGRAM: nat := 4
  const SYSTEM_PROGRAM_ACCOUNT: nat := 5
  const ACCOUNT_COUNT: nat := 6

  /** The signer and writable flags the handler demands. */
  predicate FlagsOk(accounts: seq<AccountMeta>)
    requires |accounts| >= ACCOUNT_COUNT
  {
    && accounts[USER].isSigner && accounts[USER].isWritable
    && accounts[REWARD_MINT].isWritable
    && accounts[STAKE_DETAILS].isWritable
  }

  /** Where the registry of the caller and the collection lives. */
  function RegistryAddress(env: Env, accounts: seq<AccountMeta>): Option<ProgramAddress>
    requires |accounts| >= ACCOUNT_COUNT
  {
    FindProgramAddress(env, StakeDetailsSeeds(accounts[USER].key, accounts[COLLECTION_MINT].key), env.programId)
  }

  function InitStaking(env: Env, l: Ledger, accounts: seq<AccountMeta>): (r: Result<Ledger, ProgramError>)
    // Flag checks, all reported as InvalidAccountData.
    ensures |accounts| >= ACCOUNT_COUNT && !FlagsOk(accounts) ==> r == Err(InvalidAccountData)
    // A registry account other than the derived one is rejected.
    ensures |accounts| >= ACCOUNT_COUNT && RegistryAddress(env, accounts).Some?
            && RegistryAddress(env, accounts).value.key != accounts[STAKE_DETAILS].key
            ==> r == Err(InvalidAccountData)
    // A registry that already holds data is never initialised again.
    ensures |accounts| >= ACCOUNT_COUNT && FlagsOk(accounts) && RegistryAddress(env, accounts).Some?
            && RegistryAddress(env, accounts).value.key == accounts[STAKE_DETAILS].key
            && !HasNoData(Get(l, accounts[STAKE_DETAILS].key))
            ==> r == Err(AccountAlreadyInitialized)
    ensures r.Ok? ==> |accounts| >= ACCOUNT_COUNT && FlagsOk(accounts) && RegistryAddress(env, accounts).Some?
    ensures r.Ok? ==>
              var user := accounts[USER].key;
              var details := accounts[STAKE_DETAILS].key;
              var mint := accounts[REWARD_MINT].key;
              var pa := RegistryAddress(env, accounts).value;
              // the registry sits at the derived address, was empty, and now holds the record
              && pa.key == details
              && HasNoData(Get(l, details))
              && Get(r.value, details)
                 == Account(env.programId, env.minimumBalance(StakeDetailsState.LEN),
                            Raw(StakeDetailsState.Encode(StakeDetailsState.StakeDetails(
                              user, mint, accounts[COLLECTION_MINT].key, pa.bump))))
              // funded by the caller
              && Get(r.value, user).lamports == Get(l, user).lamports - env.minimumBalance(StakeDetailsState.LEN)
              // the registry is now the reward mint's only minting authority
              && IsMint(env, l, mint) && IsMint(env, r.value, mint)
              && Get(l, mint).data.mintState.mintAuthority == Some(user)
              && Get(r.value, mint).data.mintState == Get(l, mint).data.mintState.(mintAuthority := Some(details))
              && UnchangedExcept(l, r.value, {user, details, mint})
  {
    var user :- NextAccount(accounts, USER);
    :- Need(user.isSigner && user.isWritable, InvalidAccountData);
    var rewardMint :- NextAccount(accounts, REWARD_MINT);
    :- Need(rewardMint.isWritable, InvalidAccountData);
    var collectionMint :- NextAccount(accounts, COLLECTION_MINT);
    var details :- NextAccount(accounts, STAKE_DETAILS);
    :- Need(details.isWritable, InvalidAccountData);
    var tokenProgram :- NextAccount(accounts, TOKEN_PROGRAM);
    var systemProgram :- NextAccount(accounts, SYSTEM_PROGRAM_ACCOUNT);
    var seeds := StakeDetailsSeeds(user.key, collectionMint.key);
    var pa :- FindPda(env, seeds, env.programId);
    :- Need(pa.key == details.key, InvalidAccountData);
    :- Need(HasNoData(Get(l, details.key)), AccountAlreadyInitialized);
    var space := StakeDetailsState.LEN;
    var lamports := env.minimumBalance(space);
    :- Need(systemProgram.key == SYSTEM_PROGRAM, CalleeFailed(ProgramNotPassed));
    var signers := Signers(accounts) + PdaSigner(env, WithBump(seeds, pa.bump));
    var l1 :- CreateAccount(l, user.key, details.key, lamports, space, env.programId, signers);
    var record := StakeDetailsState.StakeDetails(user.key, rewardMint.key, collectionMint.key, pa.bump);
    var l2 := WriteData(l1, details.key, StakeDetailsState.Encode(record));
    :- Need(tokenProgram.key == env.tokenProgram, IncorrectProgramId);
    SetMintAuthority(env, l2, rewardMint.key, details.key, user.key, Signers(accounts))
  }
}
