/** The client's readers of the two records: a Borsh schema is a list of
    field types read one after the other from the front of the buffer. A
    buffer shorter than the schema is refused; bytes after the last field are
    not looked at. Keys are kept as their 32 bytes (the base58 text form the
    client prints them in is not modelled). */
module ClientLayout {
  import opened Results
  import opened Bytes
  import opened Keys
  import StakeState
  import StakeDetailsState

  /** The field types the two schemas use: `u8`, `i64`, and a public key as
      an array of 32 `u8`. */
  datatype FieldType = U8 | I64 | Key

  datatype Value = U8Value(b: byte) | I64Value(i: i64) | KeyValue(key: Pubkey)

  datatype ClientError = BufferTooShort

  function Width(t: FieldType): nat {
    match t
    case U8 => 1
    case I64 => 8
    case Key => 32
  }

  function SchemaWidth(schema: seq<FieldType>): nat {
    if schema == [] then 0 else Width(schema[0]) + SchemaWidth(schema[1..])
  }

  predicate HasType(v: Value, t: FieldType) {
    match t
    case U8 => v.U8Value?
    case I64 => v.I64Value?
    case Key => v.KeyValue?
  }

  /** One field from the front of the buffer. */
  function ReadField(t: FieldType, bs: seq<byte>): (v: Value)
    requires |bs| >= Width(t)
    ensures HasType(v, t)
  {
    match t
    case U8 => U8Value(bs[0])
    case I64 => I64Value(DecodeI64(bs[..8]))
    case Key => KeyValue(bs[..32])
  }

  /** `borsh.deserialize` of a struct schema. */
  function Deserialize(schema: seq<FieldType>, bs: seq<byte>): (r: Result<seq<Value>, ClientError>)
    ensures r.Ok? <==> |bs| >= SchemaWidth(schema)
    ensures r.Ok? ==> |r.value| == |schema|
    ensures r.Ok? ==> forall i :: 0 <= i < |schema| ==> HasType(r.value[i], schema[i])
    decreases schema
  {
    if schema == [] then Ok([])
    else if |bs| < Width(schema[0]) then Err(BufferTooShort)
    else
      var rest :- Deserialize(schema[1..], bs[Width(schema[0])..]);
      Ok([ReadField(schema[0], bs)] + rest)
  }

  /** Appending bytes after a readable buffer changes nothing. */
  lemma {:induction false} TrailingBytesIgnored(schema: seq<FieldType>, bs: seq<byte>, extra: seq<byte>)
    requires |bs| >= SchemaWidth(schema)
    ensures Deserialize(schema, bs + extra) == Deserialize(schema, bs)
    decreases schema
  {
    if schema != [] {
      var w := Width(schema[0]);
      assert (bs + extra)[w..] == bs[w..] + extra;
      assert (bs + extra)[..w] == bs[..w];
      TrailingBytesIgnored(schema[1..], bs[w..], extra);
      match schema[0]
      case U8 =>
      case I64 => assert (bs + extra)[..8] == bs[..8];
      case Key => assert (bs + extra)[..32] == bs[..32];
    }
  }

  /** The schema of `Stake.getDeserialized`. */
  const STAKE_SCHEMA: seq<FieldType> := [Key, Key, Key, Key, I64]

  /** The schema of `StakeDetails.getDeserialized`. */
  const STAKE_DETAILS_SCHEMA: seq<FieldType> := [Key, Key, Key, U8]

  /** The schemas cover exactly the program's record lengths. */
  lemma SchemaWidths()
    ensures SchemaWidth(STAKE_SCHEMA) == StakeState.LEN
    ensures SchemaWidth(STAKE_DETAILS_SCHEMA) == StakeDetailsState.LEN
  {
    assert STAKE_SCHEMA[1..][1..][1..][1..][1..] == [];
    assert STAKE_DETAILS_SCHEMA[1..][1..][1..][1..] == [];
  }

  /** `Stake.getDeserialized`, keeping each field as read. */
  function ReadStake(data: seq<byte>): (r: Result<StakeState.Stake, ClientError>)
    ensures r.Ok? <==> |data| >= StakeState.LEN
  {
    SchemaWidths();
    var vs :- Deserialize(STAKE_SCHEMA, data);
    assert HasType(vs[0], STAKE_SCHEMA[0]) && HasType(vs[1], STAKE_SCHEMA[1]) && HasType(vs[2], STAKE_SCHEMA[2]);
    assert HasType(vs[3], STAKE_SCHEMA[3]) && HasType(vs[4], STAKE_SCHEMA[4]);
    Ok(StakeState.Stake(vs[0].key, vs[1].key, vs[2].key, vs[3].key, vs[4].i))
  }

  /** `StakeDetails.getDeserialized`, keeping each field as read. */
  function ReadStakeDetails(data: seq<byte>): (r: Result<StakeDetailsState.StakeDetails, ClientError>)
    ensures r.Ok? <==> |data| >= StakeDetailsState.LEN
  {
    SchemaWidths();
    var vs :- Deserialize(STAKE_DETAILS_SCHEMA, data);
    assert HasType(vs[0], STAKE_DETAILS_SCHEMA[0]) && HasType(vs[1], STAKE_DETAILS_SCHEMA[1]);
    assert HasType(vs[2], STAKE_DETAILS_SCHEMA[2]) && HasType(vs[3], STAKE_DETAILS_SCHEMA[3]);
    Ok(StakeDetailsState.StakeDetails(vs[0].key, vs[1].key, vs[2].key, vs[3].b))
  }

  /** The client reads back every field the program writes, in declaration
      order, negative timestamps included. */
  lemma ClientReadsStake(s: StakeState.Stake)
    ensures ReadStake(StakeState.Encode(s)) == Ok(s)
  {
    var bs := StakeState.Encode(s);
    DecodeEncodeI64(s.stakedAt);
    assert bs[32..][32..][32..][32..][..8] == bs[128..136];
    assert bs[32..][..32] == bs[32..64];
    assert bs[32..][32..][..32] == bs[64..96];
    assert bs[32..][32..][32..][..32] == bs[96..128];
  }

  lemma ClientReadsStakeDetails(d: StakeDetailsState.StakeDetails)
    ensures ReadStakeDetails(StakeDetailsState.Encode(d)) == Ok(d)
  {
    var bs := StakeDetailsState.Encode(d);
    assert bs[32..][..32] == bs[32..64];
    assert bs[32..][32..][..32] == bs[64..96];
    assert bs[32..][32..][32..][0] == bs[96];
  }

  /** Wherever the program's own decoder accepts a buffer, the client reads
      the same record from it; the client also accepts longer buffers, which
      the program refuses. */
  lemma ClientAgreesWithProgram(bs: seq<byte>, extra: seq<byte>)
    requires StakeState.Decode(bs).Ok?
    ensures ReadStake(bs + extra) == Ok(StakeState.Decode(bs).value)
    ensures StakeState.Decode(bs + extra).Ok? <==> extra == []
  {
    StakeState.EncodeDecode(bs);
    ClientReadsStake(StakeState.Decode(bs).value);
    SchemaWidths();
    TrailingBytesIgnored(STAKE_SCHEMA, bs, extra);
  }

  lemma ClientAgreesWithProgramDetails(bs: seq<byte>, extra: seq<byte>)
    requires StakeDetailsState.Decode(bs).Ok?
    ensures ReadStakeDetails(bs + extra) == Ok(StakeDetailsState.Decode(bs).value)
    ensures StakeDetailsState.Decode(bs + extra).Ok? <==> extra == []
  {
    StakeDetailsState.EncodeDecode(bs);
    ClientReadsStakeDetails(StakeDetailsState.Decode(bs).value);
    SchemaWidths();
    TrailingBytesIgnored(STAKE_DETAILS_SCHEMA, bs, extra);
  }
}
