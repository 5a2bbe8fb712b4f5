# NFT staking program — a Dafny model

The model covers the on-chain part of an NFT staking program for Solana, plus the client's readers of the program's two records.

A creator registers an NFT collection with `init_staking`. That call creates a registry account (the `StakeDetails` record) at an address derived from the creator and the collection, and gives the registry the minting authority over a reward token. A holder of an NFT from that collection can then:

- `stake` it: the NFT moves into an escrow token account owned by a per-NFT Stake account, which records when staking began.
- `claim_rewards`: mints 1000 reward units per second staked and moves the checkpoint to now.
- `unstake`: returns the NFT, pays the final reward, closes the escrow and the Stake account, and hands their lamports back.

The model is functional. The ledger is an immutable map from address to account (`owner`, `lamports`, `data`). An address that is absent reads as an empty system-owned account. Each handler is a pure function from a ledger, the instruction's account list and the clock reading to either a new ledger or an error. A transaction is atomic, so on an error no ledger is produced at all.

Account data is one of:

- the raw bytes of this program's records;
- a token account;
- a mint;
- NFT metadata.

Records are encoded byte for byte in the Borsh layout: 32-byte keys, a `u8`, a little-endian two's-complement `i64`.

The runtime enters the model through an `Env` value:

- the program's own id and the ids of the token, associated-token and Metaplex metadata programs;
- `createProgramAddress`: a parameter that maps seeds and a program id to an address, or to none when the result would lie on the curve;
- `minimumBalance`: the rent-exempt balance of an account size, always positive.

`find_program_address` is modelled concretely as the search from bump 255 down to 1 over `createProgramAddress` (bump 0 is never tried). The associated token address is `find_program_address([wallet, token program, mint], associated-token program)`.

The called programs are reduced to abstract effects. For each one the model states the conditions under which it succeeds and the only accounts it changes. For the token program these conditions are exact only over the token state the model keeps (mint, owner and amount of a token account; authority, supply and decimals of a mint); frozen, delegated, native and close-authority state is left out (see "## Left out"). The callees are the system program's `create_account`, the token program's `transfer`, `mint_to_checked`, `close_account` and `set_authority`, and the associated-token program's `create`.

Each handler's checks are made in source order. The first failing check decides the error. The model adds no check the source lacks:

- `claim_rewards` tests no signer flag and not the Stake account's owner.
- `unstake` never validates the reward token account.
- `stake` checks the escrow address only after the Stake account is created, and atomicity makes that harmless.

## Model

| member | source | states |
|---|---|---|
| Bytes.AsU64 | src/instruction/claim_rewards.rs:80 | `as u64` keeps a non-negative `i64` and adds 2^64 to a negative one |
| Bytes.FromLittleEndianOfLittleEndian | src/state/stake.rs:10 | reading back an n-byte little-endian encoding gives the number |
| Bytes.LittleEndianOfFromLittleEndian | src/state/stake.rs:10 | every byte string is the little-endian encoding of the number it denotes |
| Bytes.DecodeEncodeI64 | src/state/stake.rs:10 | an `i64`, negative ones included, survives its 8-byte two's-complement encoding |
| Bytes.EncodeDecodeI64 | src/state/stake.rs:10 | every 8 bytes are the encoding of the `i64` they decode to |
| Keys.BumpSearch | src/instruction/init.rs:44-49 | the search tries bumps from the given one down to 1 and never 0; a found address re-derives from its bump, no higher bump yields an address, and no result means no bump from 1 up works |
| Keys.FindProgramAddress | src/instruction/stake.rs:99 | the same, for the search from bump 255: the canonical bump is the highest viable one and at least 1; no result, where the source panics, means no bump from 1 to 255 works |
| Keys.FoundAddressDeterminesSeeds | src/instruction/stake.rs:92-104 | when address creation is collision-free, two searches under one program that find the same address were searches for the same seeds, so a derived account cannot stand in for another's |
| Keys.AssociatedAddressesDistinct | src/instruction/stake.rs:134-146 | when address creation is collision-free, an associated token address belongs to exactly one (wallet, mint) pair: each Stake account has its own escrow |
| Keys.FoundAddressCanSign | src/instruction/stake.rs:120-130 | signing with the seeds and the bump the search returned grants exactly the found address |
| Errors.ToProgramError | src/errors.rs:22-26 | every custom error becomes `Custom`, never a built-in error; a declared variant's code is its index in the declaration; the undeclared ones get codes past the declared range |
| Errors.CodeRoundTrip | src/errors.rs:5-26 | the custom code identifies the error it came from |
| Errors.ToProgramErrorInjective | src/errors.rs:5-26 | distinct custom errors convert to distinct program errors |
| Accounts.WriteData | src/instruction/claim_rewards.rs:119 | a record write replaces the data of one account, keeps its owner and lamports, and changes no other account |
| Programs.CreateAccount | src/instruction/init.rs:65-80 | creation succeeds exactly when payer and target have signed, the target is unused and the payer is a wallet holding enough lamports; the target then has the new owner, the lamports and `space` zero bytes, and the payer pays the rent |
| Programs.Transfer | src/instruction/stake.rs:183-195 | a transfer succeeds exactly when both sides are token accounts of one mint, the source's owner has signed, and the balance suffices without overflowing the destination; exactly `amount` moves and nothing else changes |
| Programs.MintTo | src/instruction/claim_rewards.rs:85-112 | minting succeeds exactly when the mint's authority has signed, decimals and mint agree, and nothing overflows; the destination and the supply each grow by `amount` |
| Programs.CloseAccount | src/instruction/unstake.rs:181-198 | closing succeeds only for an empty token account whose owner signed, with a distinct destination; the account becomes empty and its lamports go to the destination |
| Programs.SetMintAuthority | src/instruction/init.rs:94-111 | the authority changes only when the current authority signed; afterwards the new one is the mint's only authority |
| Programs.CreateAssociatedTokenAccount | src/instruction/stake.rs:151-176 | creation succeeds exactly at the wallet's associated address, for a real mint and a signing funder, when the address is still system-owned and holds no data; it may already hold lamports, in which case the funder pays only what is missing for rent exemption (and need not be a wallet when nothing is missing); the result holds a zero balance of that mint owned by the wallet and keeps the lamports that were there |
| StakeDetailsState.Encode | src/state/stake_details.rs:5-10 | the encoding is 97 bytes: creator in 0..32, reward mint in 32..64, collection mint in 64..96, bump at byte 96 |
| StakeDetailsState.Decode | src/state/stake_details.rs:4-10 | decoding succeeds exactly on 97 bytes and otherwise fails with a Borsh error |
| StakeDetailsState.DecodeEncode | src/state/stake_details.rs:4 | decoding an encoded record gives the record back |
| StakeDetailsState.EncodeDecode | src/state/stake_details.rs:4-14 | every 97-byte buffer decodes, and re-encoding gives the same bytes |
| StakeState.Encode | src/state/stake.rs:5-14 | the encoding is 136 bytes: registry key, NFT mint, reward mint and reward account in four 32-byte slots, then `staked_at` in bytes 128..136 |
| StakeState.Decode | src/state/stake.rs:4-14 | decoding succeeds exactly on 136 bytes and otherwise fails with a Borsh error |
| StakeState.DecodeEncode | src/state/stake.rs:4-10 | decoding an encoded record gives it back, negative `staked_at` included |
| StakeState.EncodeDecode | src/state/stake.rs:4-14 | every 136-byte buffer decodes, and re-encoding gives the same bytes |
| Init.InitStaking | src/instruction/init.rs:9-117 | a missing signer or writable flag, or a registry other than the derived one, is rejected with `InvalidAccountData`; a registry that already holds data gives `AccountAlreadyInitialized`; on success the registry is program-owned, holds rent, and records (caller, reward mint, collection, bump); the caller pays the rent; the mint's authority moves from the caller to the registry; no other account changes |
| StakeHandler.ValidateStake | src/instruction/stake.rs:16-105 | the flag and owner checks give `InvalidAccountData`; then no collection, wrong mint, foreign collection, unverified collection and an empty balance give their custom errors, in that order; a Stake account other than the derived one is rejected; success means the NFT is authentic for the registry and the caller holds at least one |
| StakeHandler.CreateStakeAndEscrow | src/instruction/stake.rs:107-176 | an escrow other than the associated address is rejected; on success the Stake account was unused and now holds its rent and 136 zero bytes under this program; the escrow address held no data and is now a rent-exempt token account of the NFT mint owned by the Stake account with zero balance, keeping any lamports it held; the caller pays the Stake rent and the escrow's shortfall |
| StakeHandler.ExecuteStake | src/instruction/stake.rs:107-213 | an escrow other than the associated address is rejected; on success the Stake address was unused and the escrow address held no data (it may have held lamports); exactly one token moves into a rent-exempt escrow owned by the Stake account; the Stake record holds the registry, the NFT mint, the registry's reward mint, the supplied reward account and `now`; the caller pays the Stake rent and only the part of the escrow rent the escrow address did not already hold |
| StakeHandler.StakeNft | src/instruction/stake.rs:9-215 | validation errors pass through unchanged; on success the facts of both stages hold in terms of the instruction's accounts, a pre-funded escrow address included, and only the caller, the caller's token account, the Stake account and the escrow change |
| StakeHandler.ForgedMetadataAccepted | src/instruction/stake.rs:59-83 | validation as written gives the same result whoever owns the metadata account, while the corrected handler refuses metadata not owned by the Metaplex program |
| StakeHandler.ValidateStakeChecked | src/instruction/stake.rs:59-105 | corrected validation: it succeeds only when the metadata account is owned by the Metaplex program and sits at the mint's metadata address, and otherwise agrees with validation as written |
| StakeHandler.StakeNftChecked | src/instruction/stake.rs:9-215 | corrected handler: only an NFT whose metadata is the Metaplex record of its mint, and authentic for the registry, can be staked; with genuine metadata it behaves exactly as written |
| Rewards.RewardAmount | src/instruction/claim_rewards.rs:77-80 | a non-negative duration pays exactly duration × 1000 when that fits in `i64`; an overflow aborts; a negative duration wraps to a value above 2^63 |
| Rewards.RewardSplits | src/instruction/claim_rewards.rs:79-80 | the reward from t0 to t1 plus the reward from t1 to t2 is the reward from t0 to t2 |
| Rewards.RewardMonotonic | src/instruction/claim_rewards.rs:79-80 | a later claim never pays less |
| Rewards.NothingAccruesAtCheckpoint | src/instruction/claim_rewards.rs:79-80 | no time staked, no reward |
| ClaimHandler.ClaimRewards | src/instruction/claim_rewards.rs:8-124 | a claim succeeds exactly when `ClaimPossible` holds, which includes the writable flags the mint call needs on the reward mint and the reward account; a Stake account other than the derived one gives `InvalidAccountData`; one without data gives `AccountNotInitialized`; a reward account that is not both the caller's associated account and the one on record gives `InvalidAccountData`; on success the accrued reward is minted to it, the checkpoint becomes `now` with the other fields unchanged, and the mint is signed for as the registry from its stored creator, collection and bump |
| UnstakeHandler.ValidateUnstake | src/instruction/unstake.rs:10-110 | a caller that did not sign writable gives `MissingRequiredSignature`; the other flag and owner checks give `InvalidAccountData`; then a wrong Stake address, no data, a wrong escrow address and an empty escrow give their errors in order; the later owner re-check never fires |
| UnstakeHandler.ReturnNftAndReward | src/instruction/unstake.rs:113-177 | the entire escrow balance goes back to the caller's token account, the reward for the time since the checkpoint is minted, and no lamports move |
| UnstakeHandler.CloseEscrowAndStake | src/instruction/unstake.rs:179-224 | once the escrow has closed, a caller balance that would pass u64 when the Stake account's lamports are added gives `StakeAccountCloseError`; on success the escrow and the Stake account end empty and system-owned, their lamports are added to the caller's, and the caller is neither of them |
| UnstakeHandler.ExecuteUnstake | src/instruction/unstake.rs:113-224 | the effects of both stages together, and the `StakeAccountCloseError` outcome of a lamport overflow in the final sweep |
| UnstakeHandler.Unstake | src/instruction/unstake.rs:10-225 | validation errors pass through; `InvalidAccountOwner` is never returned; on success the NFT returns in full, the reward is paid, escrow and Stake account are gone, and the caller gains exactly their lamports |
| UnstakeHandler.OverflowingSweepFails | src/instruction/unstake.rs:201-209 | when the NFT and the reward have gone out and the escrow has closed into the caller, a caller balance that would pass u64 with the Stake account's lamports added makes `unstake` fail with `StakeAccountCloseError` |
| Processor.Unpack | src/processor.rs:18-37 | decoding succeeds exactly when there is a first byte below 3; tags 0, 1 and 2 give Initialize, Stake and ClaimRewards; every failure is `InvalidInstructionData`; it never yields Unstake |
| Processor.ProcessInstruction | src/processor.rs:40-64 | empty data and tags from 3 up give `InvalidInstructionData`; tags 0, 1 and 2 give exactly the result of their handler |
| Processor.UnpackPack | src/processor.rs:20-31 | what a client packs decodes to the same operation, whatever bytes follow |
| Processor.TrailingBytesIgnored | src/processor.rs:20 | only the first byte of the instruction data is read |
| Processor.PackUnpack | src/processor.rs:22-31 | a decoded operation packs back to the tag byte it came from |
| Processor.UnstakeUnreachable | src/processor.rs:32-35 | the data the client sends for `unstake` is refused whatever the accounts, and no data decodes to Unstake |
| Processor.UnpackWithUnstake | src/processor.rs:18-37 | corrected decoder: tag 3 gives Unstake; every other input decodes as before |
| Processor.UnpackWithUnstakePack | src/processor.rs:20-31 | with the corrected decoder every operation, Unstake included, survives packing |
| Processor.ProcessWithUnstake | src/processor.rs:40-64 | corrected dispatcher: tag 3 runs the unstake handler; every other input behaves as before |
| ClientLayout.Deserialize | client/utils.ts:32-40 | a schema reads exactly when the buffer is at least as long as the schema, and yields one value of the right type per field |
| ClientLayout.TrailingBytesIgnored | client/utils.ts:32-40 | bytes after the last field do not change what is read |
| ClientLayout.SchemaWidths | client/utils.ts:4-9 | with 32-byte keys, the two schemas span 136 and 97 bytes, the program's record lengths |
| ClientLayout.ReadStake | client/utils.ts:30-57 | the client's Stake reader succeeds exactly on buffers of at least 136 bytes |
| ClientLayout.ReadStakeDetails | client/utils.ts:73-95 | the client's StakeDetails reader succeeds exactly on buffers of at least 97 bytes |
| ClientLayout.ClientReadsStake | client/utils.ts:32-40 | the client reads back every field the program wrote, in declaration order, with `staked_at` as a signed 64-bit value |
| ClientLayout.ClientReadsStakeDetails | client/utils.ts:74-81 | the same for the registry record, with the bump as a `u8` |
| ClientLayout.ClientAgreesWithProgram | client/utils.ts:30-57 | wherever the program decodes a Stake record, the client reads the same record, even with bytes appended; the program refuses appended bytes |
| ClientLayout.ClientAgreesWithProgramDetails | client/utils.ts:73-95 | the same for the registry record |
| Lifecycle.SecondInitFails | src/instruction/init.rs:57-60 | after a registry exists for a caller and a collection, every further `init_staking` naming that pair fails |
| Lifecycle.RegistryCanSign | src/instruction/claim_rewards.rs:95-112 | the record `init_staking` writes carries seeds and a bump that re-create the registry's address, so signing from the record grants exactly the registry |
| Lifecycle.ClaimIdempotent | src/instruction/claim_rewards.rs:77-119 | a second claim at the same moment succeeds, mints nothing and changes no account |
| Lifecycle.TwoClaimsPayTheWhole | src/instruction/claim_rewards.rs:79-118 | claims at t1 and then at t2 on a stake checkpointed at t0 mint (t2 − t0) × 1000 in all |
| Lifecycle.StakeThenUnstake | src/instruction/unstake.rs:113-222 | staking and then unstaking the same NFT restores the caller's NFT balance and leaves the Stake and escrow addresses empty; the caller ends with their lamports plus whatever the escrow address held before the stake, so every lamport of rent they paid comes back |

### Where the model departs from the literal source

- `init_staking` builds its record without `bump_seed` (src/instruction/init.rs:84-88), although the struct has that field (src/state/stake_details.rs:9) and `claim_rewards` and `unstake` sign with it (src/instruction/claim_rewards.rs:97-102). The model stores the bump returned by the address search (src/instruction/init.rs:44), the only value under which later signing works.
- Three custom errors are used (src/instruction/unstake.rs:88,106,208) but not declared in src/errors.rs:5-20. The model appends `AccountNotInitialized`, `NoNFTFound` and `StakeAccountCloseError` after the declared five. Their codes 5 to 7 are a choice of the model. The contracts pin only that they differ from the declared codes and from each other.
- `claim_rewards` reads the clock twice (src/instruction/claim_rewards.rs:77,116). Within one instruction the clock sysvar is fixed, so the model uses one `now`.

## Left out

- Address derivation is not modelled: the SHA-256 hashing and the off-curve test are not written out. `createProgramAddress` is a parameter, so the handlers do not assume that different seeds give different addresses; only `Keys.FoundAddressDeterminesSeeds` and `Keys.AssociatedAddressesDistinct` take that as a hypothesis (`CollisionFree`). Nor is it modelled that signers lie on the curve and derived addresses off it.
- Rent economics are not modelled: `minimumBalance` is a parameter, and only its positivity is assumed.
- `msg!` logging is left out. So are the base58 text form of keys in the client and the Borsh and Metaplex libraries themselves: the byte layout and a typed metadata record stand in for them.
- Runtime checks made after an instruction are not modelled: writes to read-only or foreign-owned accounts, and rent exemption of the accounts left behind. Nor are compute limits.
- The runtime's checks at each call into another program are modelled only where the handler does not already ensure them. In `claim_rewards`, the mint call needs the reward mint and the reward account writable, and the model reports that as `CalleeFailed(PrivilegeEscalation)`. In `init_staking`, `stake` and `unstake` every account a call writes is checked writable by the handler first.
- Init.InitStaking, StakeHandler.ExecuteStake: both demand the system program's id at its own position of the account list (src/instruction/init.rs:41, src/instruction/stake.rs:57) and otherwise return `CalleeFailed(ProgramNotPassed)`. The runtime needs the called program only somewhere among the instruction's accounts, so with another account in that position the source either still succeeds or fails with a different error. The fixed-position reading is kept because it changes nothing for account lists that put each account where the handler reads it.
- Programs.CreateAccount, Programs.Transfer, Programs.MintTo, Programs.CloseAccount, Programs.SetMintAuthority, Programs.CreateAssociatedTokenAccount: these callees are not part of this model. Only their success conditions and effects are stated, over the account state the model keeps. The order of their checks and their error codes are abstracted to `CalleeFailed`.
- Programs.Transfer, Programs.MintTo, Programs.CloseAccount: frozen, delegated, native (wrapped-SOL) and close-authority token state is not modelled. The stated success conditions are therefore exact only for unfrozen, non-native token accounts with no delegate and no close authority. A frozen account, such as the token account of a programmable NFT, makes the real call fail where the model's succeeds, and a delegate may transfer where the model requires the owner. The handlers that call these (`StakeHandler.StakeNft`, `ClaimHandler.ClaimRewards`, `UnstakeHandler.Unstake`) inherit the same restriction.
- `RefCell` borrow conflicts that arise when one account appears twice in the list are left out. They change only which error is reported. The exception is the lamport sweep at the end of `unstake` (src/instruction/unstake.rs:212-217), where a second mutable borrow would panic; it is modelled as `Panic`.
- Rewards.RewardAmount: the overflow-checked build is modelled, so an `i64` overflow in `now - staked_at` or in the product aborts the instruction. A build without overflow checks would wrap instead.
- The `Clock` and `Rent` sysvar reads cannot fail in the model.

## Findings

| source | as written | input that shows it | evidently intended | confidence | as-written member | corrected member |
|---|---|---|---|---|---|---|
| src/processor.rs:11-35 | the instruction enum has no unstake variant, and tag 3 falls into the default arm with `InvalidInstructionData`, so the `unstake` handler cannot be reached | instruction data `[3]`, the data the client sends to unstake (client/index.test.ts:361) | tag 3 decodes to Unstake and runs `unstake` | not executed; high | Processor.ProcessInstruction, Processor.UnstakeUnreachable | Processor.ProcessWithUnstake, Processor.UnpackWithUnstake |
| src/instruction/stake.rs:59-83 | the metadata account is deserialized and trusted without checking its owner or its address, so the mint, collection and verified checks run on whatever data the caller supplies | a metadata account owned by a program of the caller's, holding metadata that names the caller's own mint and the registry's collection as verified | only the Metaplex metadata record of the NFT mint is accepted, so that only NFTs verified in the collection can be staked | not executed; medium | StakeHandler.ValidateStake, StakeHandler.ForgedMetadataAccepted | StakeHandler.StakeNftChecked, StakeHandler.ValidateStakeChecked |
