/** The record of one staked NFT and its fixed 136-byte Borsh layout. */
module StakeState {
  import opened Results
  import opened Bytes
  import opened Keys
  import opened Errors

  datatype Stake = Stake(
    stakeDetailsKey: Pubkey,
    nftMint: Pubkey,
    rewardMint: Pubkey,
    rewardMintAta: Pubkey,
    stakedAt: i64)

  /** Four keys and one `i64`. */
  const LEN: nat := 32 + 32 + 32 + 32 + 8

  /** Borsh layout: the fields in declaration order, `staked_at` as eight
      little-endian two's-complement bytes. */
  function Encode(s: Stake): (bs: seq<byte>)
    ensures |bs| == LEN
    ensures bs[0..32] == s.stakeDetailsKey
    ensures bs[32..64] == s.nftMint
    ensures bs[64..96] == s.rewardMint
    ensures bs[96..128] == s.rewardMintAta
    ensures bs[128..136] == EncodeI64(s.stakedAt)
  {
    var keys := s.stakeDetailsKey + s.nftMint + s.rewardMint + s.rewardMintAta;
    var bs := keys + EncodeI64(s.stakedAt);
    assert bs[|keys|..] == EncodeI64(s.stakedAt);
    bs
  }

  /** `Stake::try_from_slice`: fails exactly when the slice is not `LEN` bytes. */
  function Decode(bs: seq<byte>): (r: Result<Stake, ProgramError>)
    ensures r.Ok? <==> |bs| == LEN
    ensures r.Err? ==> r.error == BorshIoError
  {
    if |bs| != LEN then Err(BorshIoError)
    else Ok(Stake(bs[0..32], bs[32..64], bs[64..96], bs[96..128], DecodeI64(bs[128..136])))
  }

  /** Round trip, for every `staked_at` including negative ones. */
  lemma DecodeEncode(s: Stake)
    ensures Decode(Encode(s)) == Ok(s)
  {
    var bs := Encode(s);
    DecodeEncodeI64(s.stakedAt);
    assert bs[128..136] == EncodeI64(s.stakedAt);
  }

  /** Every 136-byte string is the layout of exactly one record. */
  lemma EncodeDecode(bs: seq<byte>)
    requires |bs| == LEN
    ensures Decode(bs).Ok? && Encode(Decode(bs).value) == bs
  {
    EncodeDecodeI64(bs[128..136]);
    assert bs == bs[0..32] + bs[32..64] + bs[64..96] + bs[96..128] + bs[128..136];
  }
}
