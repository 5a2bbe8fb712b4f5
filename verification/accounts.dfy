/** The ledger the instructions run against: every address maps to an
    account with an owner program, a lamport balance and data. Data of
    accounts owned by other programs (token accounts, mints, NFT metadata) is
    kept in decoded form; data of this program's accounts is raw bytes. */
module Accounts {
  import opened Results
  import opened Bytes
  import opened Keys
  import opened Errors

  datatype TokenAccount = TokenAccount(mint: Pubkey, owner: Pubkey, amount: u64)

  datatype Mint = Mint(mintAuthority: Option<Pubkey>, supply: u64, decimals: byte)

  /** The collection an NFT's metadata claims, and whether it is verified. */
  datatype Collection = Collection(key: Pubkey, verified: bool)

  datatype Metadata = Metadata(mint: Pubkey, collection: Option<Collection>)

  datatype Data =
    | Raw(bytes: seq<byte>)
    | TokenData(token: TokenAccount)
    | MintData(mintState: Mint)
    | MetadataData(metadata: Metadata)

  datatype Account = Account(owner: Pubkey, lamports: u64, data: Data)

  /** What an address nobody has created holds. */
  const EMPTY: Account := Account(SYSTEM_PROGRAM, 0, Raw([]))

  type Ledger = map<Pubkey, Account>

  function Get(l: Ledger, k: Pubkey): Account {
    if k in l then l[k] else EMPTY
  }

  /** `data.len() == 0` */
  predicate HasNoData(a: Account) {
    a.data == Raw([])
  }

  /** Every address outside `keys` reads the same in `l` and `l'`. */
  ghost predicate UnchangedExcept(l: Ledger, l': Ledger, keys: set<Pubkey>) {
    forall k {:trigger Get(l', k)} :: k !in keys ==> Get(l', k) == Get(l, k)
  }

  /** One entry of an instruction's account list. */
  datatype AccountMeta = AccountMeta(key: Pubkey, isSigner: bool, isWritable: bool)

  /** `next_account_info`: the `i`-th account, or `NotEnoughAccountKeys`. */
  function NextAccount(accounts: seq<AccountMeta>, i: nat): (r: Result<AccountMeta, ProgramError>)
    ensures r.Ok? <==> i < |accounts|
    ensures r.Ok? ==> r.value == accounts[i]
    ensures r.Err? ==> r.error == NotEnoughAccountKeys
  {
    if i < |accounts| then Ok(accounts[i]) else Err(NotEnoughAccountKeys)
  }

  /** The keys that signed the transaction. */
  function Signers(accounts: seq<AccountMeta>): set<Pubkey> {
    set m | m in accounts && m.isSigner :: m.key
  }

  /** `find_program_address`; the source panics when no bump is viable. */
  function FindPda(env: Env, seeds: seq<Seed>, program: Pubkey): (r: Result<ProgramAddress, ProgramError>)
    ensures r.Ok? <==> FindProgramAddress(env, seeds, program).Some?
    ensures r.Ok? ==> r.value == FindProgramAddress(env, seeds, program).value
    ensures r.Err? ==> r.error == Panic
  {
    match FindProgramAddress(env, seeds, program)
    case Some(pa) => Ok(pa)
    case None => Err(Panic)
  }

  /** `get_associated_token_address_with_program_id`; panics likewise. */
  function FindAta(env: Env, wallet: Pubkey, mint: Pubkey, tokenProgram: Pubkey): (r: Result<Pubkey, ProgramError>)
    ensures r.Ok? <==> AssociatedTokenAddress(env, wallet, mint, tokenProgram).Some?
    ensures r.Ok? ==> r.value == AssociatedTokenAddress(env, wallet, mint, tokenProgram).value
    ensures r.Err? ==> r.error == Panic
  {
    match AssociatedTokenAddress(env, wallet, mint, tokenProgram)
    case Some(k) => Ok(k)
    case None => Err(Panic)
  }

  /** `spl_token::state::Account::unpack`. */
  function UnpackToken(a: Account): (r: Result<TokenAccount, ProgramError>)
    ensures r.Ok? <==> a.data.TokenData?
    ensures r.Ok? ==> r.value == a.data.token
    ensures r.Err? ==> r.error == InvalidAccountData
  {
    if a.data.TokenData? then Ok(a.data.token) else Err(InvalidAccountData)
  }

  /** `spl_token::state::Mint::unpack`. */
  function UnpackMint(a: Account): (r: Result<Mint, ProgramError>)
    ensures r.Ok? <==> a.data.MintData?
    ensures r.Ok? ==> r.value == a.data.mintState
    ensures r.Err? ==> r.error == InvalidAccountData
  {
    if a.data.MintData? then Ok(a.data.mintState) else Err(InvalidAccountData)
  }

  /** `Metadata::safe_deserialize` */
  function UnpackMetadata(a: Account): (r: Result<Metadata, ProgramError>)
    ensures r.Ok? <==> a.data.MetadataData?
    ensures r.Ok? ==> r.value == a.data.metadata
  {
    if a.data.MetadataData? then Ok(a.data.metadata) else Err(BorshIoError)
  }

  /** The raw bytes a Borsh decoder sees. The model treats typed data of
      other programs as undecodable by this program's record decoders. */
  function RawBytes(a: Account): seq<byte> {
    if a.data.Raw? then a.data.bytes else []
  }

  /** Token balance held at `k` (0 where there is no token account). */
  function TokenAmount(l: Ledger, k: Pubkey): nat {
    var a := Get(l, k);
    if a.data.TokenData? then a.data.token.amount else 0
  }

  /** Replace the data of the account at `k`, keeping owner and lamports. */
  function WriteData(l: Ledger, k: Pubkey, bytes: seq<byte>): (l': Ledger)
    ensures Get(l', k) == Get(l, k).(data := Raw(bytes))
    ensures UnchangedExcept(l, l', {k})
  {
    l[k := Get(l, k).(data := Raw(bytes))]
  }
}
