/** Account addresses and program-derived addresses (PDAs).

    The runtime's `create_program_address` (a SHA-256 hash of the seeds plus an
    off-curve test) is not modelled: it is a parameter of the environment.
    `find_program_address` is modelled exactly on top of it, as the search for
    the highest bump seed, from 255 down to 1, whose address exists; bump 0
    is never tried. */
module Keys {
  import opened Results
  import opened Bytes

  /** A 32-byte public key. */
  type Pubkey = s: seq<byte> | |s| == 32 witness seq(32, _ => 0)

  type Seed = seq<byte>

  /** A rent-exempt minimum balance: never zero, since every account pays for
      its header bytes. */
  type RentLamports = x: int | 1 <= x < 0x1_0000_0000_0000_0000 witness 1

  /** The system program's id is the all-zero key. */
  const SYSTEM_PROGRAM: Pubkey :=
    [0, 0, 0, 0, 0, 0, 0, 0, 0, 0, 0, 0, 0, 0, 0, 0, 0, 0, 0, 0, 0, 0, 0, 0, 0, 0, 0, 0, 0, 0, 0, 0]

  /** ASCII "stake_details" */
  const STAKE_DETAILS_SEED: Seed := [115, 116, 97, 107, 101, 95, 100, 101, 116, 97, 105, 108, 115]
  /** ASCII "stake" */
  const STAKE_SEED: Seed := [115, 116, 97, 107, 101]
  /** ASCII "metadata", the Metaplex metadata program's own seed prefix */
  const METADATA_SEED: Seed := [109, 101, 116, 97, 100, 97, 116, 97]

  /** What the runtime supplies to the program: its own id, the ids of the
      token, associated-token and Metaplex metadata programs, address creation
      from seeds, and the rent-exempt minimum balance for an account of a
      given size. */
  datatype Env = Env(
    programId: Pubkey,
    tokenProgram: Pubkey,
    ataProgram: Pubkey,
    metadataProgram: Pubkey,
    createProgramAddress: (seq<Seed>, Pubkey) -> Option<Pubkey>,
    minimumBalance: nat -> RentLamports)

  datatype ProgramAddress = ProgramAddress(key: Pubkey, bump: byte)

  function WithBump(seeds: seq<Seed>, bump: byte): seq<Seed> {
    seeds + [[bump]]
  }

  /** `create_program_address(seeds ++ [[bump]], program)` */
  function AddressWithBump(env: Env, seeds: seq<Seed>, bump: byte, program: Pubkey): Option<Pubkey> {
    env.createProgramAddress(WithBump(seeds, bump), program)
  }

  /** The search of `find_program_address` from `bump` down to 1: the SDK
      runs its loop 255 times, decrementing the bump after each try. */
  function BumpSearch(env: Env, seeds: seq<Seed>, program: Pubkey, bump: byte): (r: Option<ProgramAddress>)
    requires bump >= 1
    ensures r.Some? ==> 1 <= r.value.bump <= bump
    ensures r.Some? ==> AddressWithBump(env, seeds, r.value.bump, program) == Some(r.value.key)
    ensures r.Some? ==> forall b: byte :: r.value.bump < b <= bump ==> AddressWithBump(env, seeds, b, program).None?
    ensures r.None? ==> forall b: byte :: 1 <= b <= bump ==> AddressWithBump(env, seeds, b, program).None?
    decreases bump
  {
    match AddressWithBump(env, seeds, bump, program)
    case Some(k) => Some(ProgramAddress(k, bump))
    case None => if bump == 1 then None else BumpSearch(env, seeds, program, bump - 1)
  }

  /** `find_program_address(seeds, program)`: the address for the canonical
      (highest viable) bump. `None` is the case in which the source panics. */
  function FindProgramAddress(env: Env, seeds: seq<Seed>, program: Pubkey): (r: Option<ProgramAddress>)
    ensures r.Some? ==> r.value.bump >= 1
    ensures r.Some? ==> AddressWithBump(env, seeds, r.value.bump, program) == Some(r.value.key)
    ensures r.Some? ==> forall b: byte :: r.value.bump < b ==> AddressWithBump(env, seeds, b, program).None?
    ensures r.None? ==> forall b: byte :: 1 <= b ==> AddressWithBump(env, seeds, b, program).None?
  {
    BumpSearch(env, seeds, program, 255)
  }

  /** Seeds of the registry (StakeDetails) account of a (creator, collection) pair. */
  function StakeDetailsSeeds(creator: Pubkey, collection: Pubkey): seq<Seed> {
    [STAKE_DETAILS_SEED, creator, collection]
  }

  /** Seeds of the Stake account of a (registry, NFT mint, owner) triple. */
  function StakeSeeds(details: Pubkey, nftMint: Pubkey, user: Pubkey): seq<Seed> {
    [STAKE_SEED, details, nftMint, user]
  }

  /** Seeds of the Metaplex metadata account of `mint`. */
  function MetadataSeeds(metadataProgram: Pubkey, mint: Pubkey): seq<Seed> {
    [METADATA_SEED, metadataProgram, mint]
  }

  /** Seeds of the associated token account of `wallet` for `mint`. */
  function AtaSeeds(wallet: Pubkey, tokenProgram: Pubkey, mint: Pubkey): seq<Seed> {
    [wallet, tokenProgram, mint]
  }

  /** `get_associated_token_address_with_program_id(wallet, mint, tokenProgram)` */
  function AssociatedTokenAddress(env: Env, wallet: Pubkey, mint: Pubkey, tokenProgram: Pubkey): (r: Option<Pubkey>)
    ensures r.Some? <==> FindProgramAddress(env, AtaSeeds(wallet, tokenProgram, mint), env.ataProgram).Some?
    ensures r.Some? ==> r.value == FindProgramAddress(env, AtaSeeds(wallet, tokenProgram, mint), env.ataProgram).value.key
  {
    match FindProgramAddress(env, AtaSeeds(wallet, tokenProgram, mint), env.ataProgram)
    case Some(pa) => Some(pa.key)
    case None => None
  }

  /** Address creation never maps two different (seeds, program) pairs to
      one address: the collision resistance of the hash behind it. */
  ghost predicate CollisionFree(env: Env) {
    forall s1, p1, s2, p2 ::
      env.createProgramAddress(s1, p1).Some? && env.createProgramAddress(s1, p1) == env.createProgramAddress(s2, p2)
      ==> s1 == s2 && p1 == p2
  }

  /** Under a collision-free address creation, the address the search finds
      determines the seeds it was found for: different seeds never lead two
      searches under one program to the same account. */
  lemma {:induction false} FoundAddressDeterminesSeeds(env: Env, s1: seq<Seed>, s2: seq<Seed>, program: Pubkey)
    requires CollisionFree(env)
    requires FindProgramAddress(env, s1, program).Some? && FindProgramAddress(env, s2, program).Some?
    requires FindProgramAddress(env, s1, program).value.key == FindProgramAddress(env, s2, program).value.key
    ensures s1 == s2
    ensures FindProgramAddress(env, s1, program) == FindProgramAddress(env, s2, program)
  {
    var pa1 := FindProgramAddress(env, s1, program).value;
    var pa2 := FindProgramAddress(env, s2, program).value;
    assert WithBump(s1, pa1.bump) == WithBump(s2, pa2.bump);
    assert |s1| == |s2|;
    assert s1 == WithBump(s1, pa1.bump)[..|s1|];
    assert s2 == WithBump(s2, pa2.bump)[..|s2|];
  }

  /** Under a collision-free address creation, one associated token address
      belongs to one (wallet, mint) pair: each Stake account has its own
      escrow, and each caller its own reward account. */
  lemma {:induction false} AssociatedAddressesDistinct(env: Env, w1: Pubkey, m1: Pubkey, w2: Pubkey, m2: Pubkey,
                                                       tokenProgram: Pubkey)
    requires CollisionFree(env)
    requires AssociatedTokenAddress(env, w1, m1, tokenProgram).Some?
    requires AssociatedTokenAddress(env, w1, m1, tokenProgram) == AssociatedTokenAddress(env, w2, m2, tokenProgram)
    ensures w1 == w2 && m1 == m2
  {
    FoundAddressDeterminesSeeds(env, AtaSeeds(w1, tokenProgram, m1), AtaSeeds(w2, tokenProgram, m2), env.ataProgram);
    assert AtaSeeds(w1, tokenProgram, m1)[0] == AtaSeeds(w2, tokenProgram, m2)[0];
    assert AtaSeeds(w1, tokenProgram, m1)[2] == AtaSeeds(w2, tokenProgram, m2)[2];
  }

  /** The extra signer that `invoke_signed` with `signerSeeds` grants: the
      address those seeds create under this program, if any. Where the seeds
      give no address the runtime fails the call with a seeds error; here no
      signer is added, so the call fails only where it needs that signature.
      Every call in this program signs with seeds taken from a found address
      or from the registry record, so the difference shows only in which
      error is reported. */
  function PdaSigner(env: Env, signerSeeds: seq<Seed>): set<Pubkey> {
    match env.createProgramAddress(signerSeeds, env.programId)
    case Some(k) => {k}
    case None => {}
  }

  /** Signing with the seeds and canonical bump that `find_program_address`
      returned grants exactly the found address: a program may act for every
      PDA it can find. */
  lemma {:induction false} FoundAddressCanSign(env: Env, seeds: seq<Seed>)
    requires FindProgramAddress(env, seeds, env.programId).Some?
    ensures var pa := FindProgramAddress(env, seeds, env.programId).value;
            PdaSigner(env, WithBump(seeds, pa.bump)) == {pa.key}
  {
  }
}
