/** The program's error vocabulary: its own `NftStakingError` enum, the
    built-in `ProgramError` values it returns, and the conversion between them. */
module Errors {
  import opened Results
  import opened Bytes

  /** The custom errors. The first five are declared in the enum; the last
      three are used by the handlers but missing from the declaration, and the
      model appends them after the declared ones. */
  datatype NftStakingError =
    | CollectionMintMismatch
    | NoCollectionSet
    | InvalidMetadataAccount
    | NftNotVerified
    | NftEmpty
    | AccountNotInitialized
    | NoNFTFound
    | StakeAccountCloseError

  /** The enum as declared, in declaration order. */
  const DECLARED: seq<NftStakingError> :=
    [CollectionMintMismatch, NoCollectionSet, InvalidMetadataAccount, NftNotVerified, NftEmpty]

  /** Failures of a call into another program (system, token,
      associated-token), reported by the callee or by the runtime's checks of
      the call. Their wire codes are not modelled. */
  datatype CalleeError =
    | AccountAlreadyInUse
    | InsufficientLamports
    | NotATokenAccount
    | NotAMint
    | MintMismatch
    | OwnerMismatch
    | MissingSignature
    | InsufficientTokens
    | Overflow
    | NonZeroBalance
    | InvalidSeeds
    | IncorrectProgram
    | ProgramNotPassed
    | IllegalOwner
    | AccountBorrowFailed
      /** A writable or signer flag the callee needs that the caller lacks. */
    | PrivilegeEscalation

  datatype ProgramError =
    | Custom(code: u32)
    | InvalidInstructionData
    | InvalidAccountData
    | AccountAlreadyInitialized
    | NotEnoughAccountKeys
    | MissingRequiredSignature
    | InvalidAccountOwner
    | IncorrectProgramId
    | BorshIoError
    | CalleeFailed(callee: CalleeError)
      /** The abort a Rust panic causes (failed PDA search, checked-arithmetic overflow). */
    | Panic

  /** `e as u32`: the position of the variant in the enum. */
  function Code(e: NftStakingError): u32 {
    match e
    case CollectionMintMismatch => 0
    case NoCollectionSet => 1
    case InvalidMetadataAccount => 2
    case NftNotVerified => 3
    case NftEmpty => 4
    case AccountNotInitialized => 5
    case NoNFTFound => 6
    case StakeAccountCloseError => 7
  }

  /** `From<NftStakingError> for ProgramError`: every custom error becomes
      `Custom(code)` whose code is the variant's declaration index. */
  function ToProgramError(e: NftStakingError): (r: ProgramError)
    ensures r.Custom?
    ensures e in DECLARED ==> r.code < |DECLARED| && DECLARED[r.code] == e
    ensures e !in DECLARED ==> r.code >= |DECLARED|
  {
    Custom(Code(e))
  }

  /** Reading a custom code back as the error that produced it. */
  function FromCustomCode(code: u32): Option<NftStakingError> {
    match code
    case 0 => Some(CollectionMintMismatch)
    case 1 => Some(NoCollectionSet)
    case 2 => Some(InvalidMetadataAccount)
    case 3 => Some(NftNotVerified)
    case 4 => Some(NftEmpty)
    case 5 => Some(AccountNotInitialized)
    case 6 => Some(NoNFTFound)
    case 7 => Some(StakeAccountCloseError)
    case _ => None
  }

  /** The conversion loses nothing: the code identifies the error. */
  lemma CodeRoundTrip(e: NftStakingError)
    ensures FromCustomCode(ToProgramError(e).code) == Some(e)
  {
  }

  /** Distinct errors convert to distinct program errors. */
  lemma ToProgramErrorInjective(e1: NftStakingError, e2: NftStakingError)
    ensures ToProgramError(e1) == ToProgramError(e2) ==> e1 == e2
  {
    CodeRoundTrip(e1);
    CodeRoundTrip(e2);
  }
}
