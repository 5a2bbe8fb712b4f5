/** The instruction decoder and dispatcher. Instruction data is one tag byte;
    anything after it is ignored. */
module Processor {
  import opened Results
  import opened Bytes
  import opened Keys
  import opened Errors
  import opened Accounts
  import Init
  import StakeHandler
  import ClaimHandler
  import UnstakeHandler

  /** The operations of the program. The decoder as written produces only the
      first three; `Unstake` is the one the deployed client also asks for. */
  datatype Instruction = Initialize | Stake | ClaimRewards | Unstake

  /** The tag byte of each operation: its position in the declaration. */
  function Tag(ins: Instruction): byte {
    match ins
    case Initialize => 0
    case Stake => 1
    case ClaimRewards => 2
    case Unstake => 3
  }

  /** The instruction data a client sends for `ins`. */
  function Pack(ins: Instruction): (data: seq<byte>)
    ensures |data| == 1 && data[0] == Tag(ins)
  {
    [Tag(ins)]
  }

  /** `StakingInstruction::unpack` as written: tags 0, 1 and 2 only. */
  function Unpack(data: seq<byte>): (r: Result<Instruction, ProgramError>)
    ensures r.Err? ==> r.error == InvalidInstructionData
    ensures r.Ok? <==> |data| >= 1 && data[0] < 3
    ensures r.Ok? ==> Tag(r.value) == data[0] && r.value != Unstake
  {
    if |data| == 0 then Err(InvalidInstructionData)
    else if data[0] == 0 then Ok(Initialize)
    else if data[0] == 1 then Ok(Stake)
    else if data[0] == 2 then Ok(ClaimRewards)
    else Err(InvalidInstructionData)
  }

  /** The decoder with the missing `unstake` arm added under tag 3. */
  function UnpackWithUnstake(data: seq<byte>): (r: Result<Instruction, ProgramError>)
    ensures r.Err? ==> r.error == InvalidInstructionData
    ensures r.Ok? <==> |data| >= 1 && data[0] < 4
    ensures r.Ok? ==> Tag(r.value) == data[0]
    ensures data != [] && data[0] != 3 ==> r == Unpack(data)
  {
    if |data| >= 1 && data[0] == 3 then Ok(Unstake) else Unpack(data)
  }

  /** Runs the handler of one decoded operation. The clock reading `now` is
      taken by the handlers that consult `Clock::get`. */
  function Dispatch(env: Env, l: Ledger, accounts: seq<AccountMeta>, ins: Instruction, now: i64)
    : (r: Result<Ledger, ProgramError>)
  {
    match ins
    case Initialize => Init.InitStaking(env, l, accounts)
    case Stake => StakeHandler.StakeNft(env, l, accounts, now)
    case ClaimRewards => ClaimHandler.ClaimRewards(env, l, accounts, now)
    case Unstake => UnstakeHandler.Unstake(env, l, accounts, now)
  }

  /** `process_instruction` as written. */
  function ProcessInstruction(env: Env, l: Ledger, accounts: seq<AccountMeta>, data: seq<byte>, now: i64)
    : (r: Result<Ledger, ProgramError>)
    ensures |data| == 0 ==> r == Err(InvalidInstructionData)
    ensures |data| >= 1 && data[0] >= 3 ==> r == Err(InvalidInstructionData)
    ensures |data| >= 1 && data[0] == 0 ==> r == Init.InitStaking(env, l, accounts)
    ensures |data| >= 1 && data[0] == 1 ==> r == StakeHandler.StakeNft(env, l, accounts, now)
    ensures |data| >= 1 && data[0] == 2 ==> r == ClaimHandler.ClaimRewards(env, l, accounts, now)
  {
    var ins :- Unpack(data);
    Dispatch(env, l, accounts, ins, now)
  }

  /** `process_instruction` with the `unstake` arm routed. */
  function ProcessWithUnstake(env: Env, l: Ledger, accounts: seq<AccountMeta>, data: seq<byte>, now: i64)
    : (r: Result<Ledger, ProgramError>)
    ensures |data| >= 1 && data[0] == 3 ==> r == UnstakeHandler.Unstake(env, l, accounts, now)
    ensures data != [] && data[0] != 3 ==> r == ProcessInstruction(env, l, accounts, data, now)
    ensures |data| == 0 ==> r == Err(InvalidInstructionData)
  {
    var ins :- UnpackWithUnstake(data);
    Dispatch(env, l, accounts, ins, now)
  }

  /** Decoding what a client packs gives back the operation, whatever follows
      the tag byte. */
  lemma UnpackPack(ins: Instruction, rest: seq<byte>)
    requires ins != Unstake
    ensures Unpack(Pack(ins) + rest) == Ok(ins)
    ensures UnpackWithUnstake(Pack(ins) + rest) == Ok(ins)
  {
  }

  lemma UnpackWithUnstakePack(ins: Instruction, rest: seq<byte>)
    ensures UnpackWithUnstake(Pack(ins) + rest) == Ok(ins)
  {
  }

  /** Only the tag byte is read. */
  lemma TrailingBytesIgnored(b: byte, rest: seq<byte>)
    ensures Unpack([b] + rest) == Unpack([b])
    ensures UnpackWithUnstake([b] + rest) == UnpackWithUnstake([b])
  {
  }

  /** Packing a decoded operation gives back the tag byte it came from. */
  lemma PackUnpack(data: seq<byte>)
    requires UnpackWithUnstake(data).Ok?
    ensures Pack(UnpackWithUnstake(data).value) == data[..1]
  {
  }

  /** The discrepancy: the instruction the client sends to unstake (tag 3)
      is refused by the decoder as written, whatever the accounts, so the
      unstake handler is unreachable. */
  lemma UnstakeUnreachable(env: Env, l: Ledger, accounts: seq<AccountMeta>, rest: seq<byte>, now: i64)
    ensures ProcessInstruction(env, l, accounts, Pack(Unstake) + rest, now) == Err(InvalidInstructionData)
    ensures forall data :: Unpack(data) != Ok(Unstake)
  {
  }
}
