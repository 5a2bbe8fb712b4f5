/** Properties of sequences of instructions: what one operation leaves behind
    for the next. */
module Lifecycle {
  import opened Results
  import opened Bytes
  import opened Keys
  import opened Errors
  import opened Accounts
  import opened Programs
  import opened Rewards
  import StakeDetailsState
  import StakeState
  import Init
  import StakeHandler
  import ClaimHandler
  import UnstakeHandler

  /** Once a registry exists for a caller and a collection, no further
      `init_staking` for that pair succeeds, whatever accounts it names. */
  lemma {:induction false} SecondInitFails(env: Env, l: Ledger, accounts: seq<AccountMeta>, again: seq<AccountMeta>)
    requires Init.InitStaking(env, l, accounts).Ok?
    requires |again| >= Init.ACCOUNT_COUNT
    requires again[Init.USER].key == accounts[Init.USER].key
    requires again[Init.COLLECTION_MINT].key == accounts[Init.COLLECTION_MINT].key
    ensures Init.InitStaking(env, Init.InitStaking(env, l, accounts).value, again).Err?
  {
    var l1 := Init.InitStaking(env, l, accounts).value;
    var details := accounts[Init.STAKE_DETAILS].key;
    assert Init.RegistryAddress(env, again) == Init.RegistryAddress(env, accounts);
    assert !HasNoData(Get(l1, details)) by {
      assert |StakeDetailsState.Encode(StakeDetailsState.StakeDetails(
        accounts[Init.USER].key, accounts[Init.REWARD_MINT].key, accounts[Init.COLLECTION_MINT].key,
        Init.RegistryAddress(env, accounts).value.bump))| == StakeDetailsState.LEN;
    }
  }

  /** The record `init_staking` writes carries the seeds and bump that
      re-create the registry's address, so later instructions can sign as
      the registry from the record alone. */
  lemma RegistryCanSign(env: Env, l: Ledger, accounts: seq<AccountMeta>)
    requires Init.InitStaking(env, l, accounts).Ok?
    ensures var details := accounts[Init.STAKE_DETAILS].key;
            var record := StakeDetailsState.Decode(RawBytes(Get(Init.InitStaking(env, l, accounts).value, details)));
            && record.Ok?
            && AddressWithBump(env, StakeDetailsSeeds(record.value.creator, record.value.collectionMint),
                               record.value.bumpSeed, env.programId) == Some(details)
            && PdaSigner(env, WithBump(StakeDetailsSeeds(record.value.creator, record.value.collectionMint),
                                       record.value.bumpSeed)) == {details}
  {
    var pa := Init.RegistryAddress(env, accounts).value;
    StakeDetailsState.DecodeEncode(StakeDetailsState.StakeDetails(
      accounts[Init.USER].key, accounts[Init.REWARD_MINT].key, accounts[Init.COLLECTION_MINT].key, pa.bump));
  }

  /** Claiming again at the same moment mints nothing and changes nothing. */
  lemma ClaimIdempotent(env: Env, l: Ledger, accounts: seq<AccountMeta>, now: i64)
    requires ClaimHandler.ClaimRewards(env, l, accounts, now).Ok?
    ensures var l1 := ClaimHandler.ClaimRewards(env, l, accounts, now).value;
            var l2 := ClaimHandler.ClaimRewards(env, l1, accounts, now);
            && l2.Ok?
            && forall k :: Get(l2.value, k) == Get(l1, k)
  {
    var l1 := ClaimHandler.ClaimRewards(env, l, accounts, now).value;
    var record := ClaimHandler.StakeOf(l, accounts);
    StakeState.DecodeEncode(record.(stakedAt := now));
    assert ClaimHandler.StakeOf(l1, accounts) == record.(stakedAt := now);
    NothingAccruesAtCheckpoint(now);
  }

  /** Claims at `t1` and then at `t2` on a stake checkpointed at `t0` mint
      `(t2 - t0) * 1000` in all. */
  lemma TwoClaimsPayTheWhole(env: Env, l: Ledger, accounts: seq<AccountMeta>, t1: i64, t2: i64)
    requires ClaimHandler.ClaimRewards(env, l, accounts, t1).Ok?
    requires ClaimHandler.StakeOf(l, accounts).stakedAt <= t1 <= t2
    requires ClaimHandler.ClaimRewards(env, ClaimHandler.ClaimRewards(env, l, accounts, t1).value, accounts, t2).Ok?
    ensures var t0 := ClaimHandler.StakeOf(l, accounts).stakedAt;
            var dest := accounts[ClaimHandler.USER_REWARD].key;
            var l2 := ClaimHandler.ClaimRewards(env, ClaimHandler.ClaimRewards(env, l, accounts, t1).value, accounts, t2).value;
            TokenAmount(l2, dest) == TokenAmount(l, dest) + (t2 - t0) * REWARD_PER_SECOND
  {
    var l1 := ClaimHandler.ClaimRewards(env, l, accounts, t1).value;
    var record := ClaimHandler.StakeOf(l, accounts);
    StakeState.DecodeEncode(record.(stakedAt := t1));
    assert ClaimHandler.StakeOf(l1, accounts) == record.(stakedAt := t1);
  }

  /** The unstake instruction that names the same caller, NFT, registry and
      accounts as an earlier stake. */
  predicate Matching(stakeAccounts: seq<AccountMeta>, unstakeAccounts: seq<AccountMeta>) {
    && |stakeAccounts| >= StakeHandler.ACCOUNT_COUNT
    && |unstakeAccounts| >= UnstakeHandler.ACCOUNT_COUNT
    && unstakeAccounts[UnstakeHandler.USER].key == stakeAccounts[StakeHandler.USER].key
    && unstakeAccounts[UnstakeHandler.USER_NFT].key == stakeAccounts[StakeHandler.USER_TOKEN].key
    && unstakeAccounts[UnstakeHandler.STAKE_DETAILS].key == stakeAccounts[StakeHandler.STAKE_DETAILS].key
    && unstakeAccounts[UnstakeHandler.STAKE].key == stakeAccounts[StakeHandler.STAKE].key
    && unstakeAccounts[UnstakeHandler.STAKE_NFT].key == stakeAccounts[StakeHandler.STAKE_ATA].key
    && unstakeAccounts[UnstakeHandler.NFT_MINT].key == stakeAccounts[StakeHandler.NFT_MINT].key
  }

  /** Staking and then unstaking gives the NFT back and removes both accounts
      staking created. The caller gets back every lamport of rent they paid,
      plus whatever the escrow address already held before the stake, since
      those lamports stayed in the escrow and are swept with it. */
  lemma StakeThenUnstake(env: Env, l: Ledger, sa: seq<AccountMeta>, ua: seq<AccountMeta>, t0: i64, t1: i64)
    requires Matching(sa, ua)
    requires StakeHandler.StakeNft(env, l, sa, t0).Ok?
    requires UnstakeHandler.Unstake(env, StakeHandler.StakeNft(env, l, sa, t0).value, ua, t1).Ok?
    requires ua[UnstakeHandler.USER_REWARD].key != ua[UnstakeHandler.USER_NFT].key
    ensures var l2 := UnstakeHandler.Unstake(env, StakeHandler.StakeNft(env, l, sa, t0).value, ua, t1).value;
            var user := sa[StakeHandler.USER].key;
            && TokenAmount(l2, sa[StakeHandler.USER_TOKEN].key) == TokenAmount(l, sa[StakeHandler.USER_TOKEN].key)
            && Get(l2, sa[StakeHandler.STAKE].key) == Get(l, sa[StakeHandler.STAKE].key) == EMPTY
            && Get(l2, sa[StakeHandler.STAKE_ATA].key) == EMPTY
            && Get(l2, user).lamports == Get(l, user).lamports + Get(l, sa[StakeHandler.STAKE_ATA].key).lamports
  {
  }
}
