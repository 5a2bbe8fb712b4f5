/** The reward formula shared by `claim_rewards` and `unstake`:
    `((now - staked_at) * 1000) as u64`, 1000 reward units per second. */
module Rewards {
  import opened Results
  import opened Bytes
  import opened Errors

  const REWARD_PER_SECOND: int := 1000

  /** The `i64` subtraction and multiplication are overflow-checked, so an
      out-of-range intermediate aborts; the final `as u64` reinterprets a
      negative product's bits. */
  function RewardAmount(now: i64, stakedAt: i64): (r: Result<u64, ProgramError>)
    ensures r.Err? ==> r.error == Panic
    ensures now >= stakedAt ==> (r.Ok? <==> (now - stakedAt) * REWARD_PER_SECOND < -I64_MIN)
    ensures r.Ok? && now >= stakedAt ==> r.value == (now - stakedAt) * REWARD_PER_SECOND
    ensures r.Ok? && now < stakedAt ==> r.value > -I64_MIN
  {
    var elapsed := now - stakedAt;
    if !InI64(elapsed) then Err(Panic)
    else if !InI64(elapsed * REWARD_PER_SECOND) then Err(Panic)
    else Ok(AsU64(elapsed * REWARD_PER_SECOND))
  }

  /** A claim right after the checkpoint was reset mints nothing. */
  lemma NothingAccruesAtCheckpoint(t: i64)
    ensures RewardAmount(t, t) == Ok(0)
  {
  }

  /** Settling at `t1` and again at `t2` pays what one settlement at `t2`
      would have paid. */
  lemma RewardSplits(t0: i64, t1: i64, t2: i64)
    requires t0 <= t1 <= t2
    requires RewardAmount(t2, t0).Ok?
    ensures RewardAmount(t1, t0).Ok? && RewardAmount(t2, t1).Ok?
    ensures RewardAmount(t1, t0).value + RewardAmount(t2, t1).value == RewardAmount(t2, t0).value
  {
  }

  /** The longer the stake, the larger the reward. */
  lemma RewardMonotonic(t0: i64, t1: i64, t2: i64)
    requires t0 <= t1 <= t2
    requires RewardAmount(t2, t0).Ok?
    ensures RewardAmount(t1, t0).Ok? && RewardAmount(t1, t0).value <= RewardAmount(t2, t0).value
  {
  }
}
