/** The registry record of one (creator, collection) pair and its fixed
    97-byte Borsh layout. */
module StakeDetailsState {
  import opened Results
  import opened Bytes
  import opened Keys
  import opened Errors

  datatype StakeDetails = StakeDetails(
    creator: Pubkey,
    rewardTokenMint: Pubkey,
    collectionMint: Pubkey,
    bumpSeed: byte)

  /** Three keys and one byte. */
  const LEN: nat := 32 + 32 + 32 + 1

  /** Borsh layout: the fields in declaration order, keys as raw 32-byte arrays. */
  function Encode(d: StakeDetails): (bs: seq<byte>)
    ensures |bs| == LEN
    ensures bs[0..32] == d.creator
    ensures bs[32..64] == d.rewardTokenMint
    ensures bs[64..96] == d.collectionMint
    ensures bs[96] == d.bumpSeed
  {
    d.creator + d.rewardTokenMint + d.collectionMint + [d.bumpSeed]
  }

  /** `StakeDetails::try_from_slice`: every field is fixed-width and every bit
      pattern is a valid value, so decoding fails exactly when the slice is not
      `LEN` bytes long (too short, or bytes left over). */
  function Decode(bs: seq<byte>): (r: Result<StakeDetails, ProgramError>)
    ensures r.Ok? <==> |bs| == LEN
    ensures r.Err? ==> r.error == BorshIoError
  {
    if |bs| != LEN then Err(BorshIoError)
    else Ok(StakeDetails(bs[0..32], bs[32..64], bs[64..96], bs[96]))
  }

  lemma DecodeEncode(d: StakeDetails)
    ensures Decode(Encode(d)) == Ok(d)
  {
  }

  /** Every 97-byte string is the layout of exactly one record. */
  lemma EncodeDecode(bs: seq<byte>)
    requires |bs| == LEN
    ensures Decode(bs).Ok? && Encode(Decode(bs).value) == bs
  {
    var d := Decode(bs).value;
    assert bs == bs[0..32] + bs[32..64] + bs[64..96] + [bs[96]];
  }
}
