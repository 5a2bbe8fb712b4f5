/** The effects on the ledger of the instructions this program invokes in
    the system, token and associated-token programs. Each callee is reduced to
    the conditions under which it succeeds and the accounts it changes; the
    order in which a callee tests its conditions, and its error codes, are not
    modelled. */
module Programs {
  import opened Results
  import opened Bytes
  import opened Keys
  import opened Errors
  import opened Accounts

  /** `spl_token::state::Account::LEN` */
  const TOKEN_ACCOUNT_LEN: nat := 165

  function Zeros(n: nat): (z: seq<byte>)
    ensures |z| == n
    ensures forall i :: 0 <= i < n ==> z[i] == 0
  {
    if n == 0 then [] else [0] + Zeros(n - 1)
  }

  predicate IsTokenAccount(env: Env, l: Ledger, k: Pubkey) {
    Get(l, k).owner == env.tokenProgram && Get(l, k).data.TokenData?
  }

  predicate IsMint(env: Env, l: Ledger, k: Pubkey) {
    Get(l, k).owner == env.tokenProgram && Get(l, k).data.MintData?
  }

  function WithAmount(a: Account, amount: u64): Account
    requires a.data.TokenData?
  {
    a.(data := TokenData(a.data.token.(amount := amount)))
  }

  /** A plain wallet: the only kind of account the system program debits. */
  predicate IsWallet(l: Ledger, k: Pubkey) {
    Get(l, k).owner == SYSTEM_PROGRAM && HasNoData(Get(l, k))
  }

  /** System program `create_account`: `payer` funds a new account of `space`
      zero bytes owned by `owner` at the unused address `target`. */
  function CreateAccount(l: Ledger, payer: Pubkey, target: Pubkey, lamports: u64, space: nat,
                         owner: Pubkey, signers: set<Pubkey>): (r: Result<Ledger, ProgramError>)
    ensures r.Ok? <==> payer in signers && target in signers && Get(l, target) == EMPTY
                       && IsWallet(l, payer) && Get(l, payer).lamports >= lamports
    ensures r.Ok? ==> Get(r.value, target) == Account(owner, lamports, Raw(Zeros(space)))
    ensures r.Ok? && payer != target ==>
              Get(r.value, payer) == Get(l, payer).(lamports := Get(l, payer).lamports - lamports)
    ensures r.Ok? ==> UnchangedExcept(l, r.value, {payer, target})
  {
    var p := Get(l, payer);
    if !(payer in signers && target in signers) then Err(CalleeFailed(MissingSignature))
    else if Get(l, target) != EMPTY then Err(CalleeFailed(AccountAlreadyInUse))
    else if !IsWallet(l, payer) || p.lamports < lamports then Err(CalleeFailed(InsufficientLamports))
    else
      var l1 := l[payer := p.(lamports := p.lamports - lamports)];
      Ok(l1[target := Account(owner, lamports, Raw(Zeros(space)))])
  }

  /** Token program `transfer` of `amount` from `source` to `dest`, authorised
      by the source's owner. A transfer to itself changes nothing. */
  function Transfer(env: Env, l: Ledger, source: Pubkey, dest: Pubkey, authority: Pubkey,
                    amount: u64, signers: set<Pubkey>): (r: Result<Ledger, ProgramError>)
    ensures r.Ok? <==>
              && IsTokenAccount(env, l, source) && IsTokenAccount(env, l, dest)
              && Get(l, source).data.token.mint == Get(l, dest).data.token.mint
              && Get(l, source).data.token.owner == authority && authority in signers
              && Get(l, source).data.token.amount >= amount
              && (source != dest ==> Get(l, dest).data.token.amount + amount < U64_MODULUS)
    ensures r.Ok? && source == dest ==> r.value == l
    ensures r.Ok? && source != dest ==>
              && Get(r.value, source) == WithAmount(Get(l, source), Get(l, source).data.token.amount - amount)
              && Get(r.value, dest) == WithAmount(Get(l, dest), Get(l, dest).data.token.amount + amount)
    ensures r.Ok? ==> UnchangedExcept(l, r.value, {source, dest})
  {
    if !(IsTokenAccount(env, l, source) && IsTokenAccount(env, l, dest)) then Err(CalleeFailed(NotATokenAccount))
    else
      var src := Get(l, source);
      var dst := Get(l, dest);
      if src.data.token.mint != dst.data.token.mint then Err(CalleeFailed(MintMismatch))
      else if src.data.token.owner != authority then Err(CalleeFailed(OwnerMismatch))
      else if authority !in signers then Err(CalleeFailed(MissingSignature))
      else if src.data.token.amount < amount then Err(CalleeFailed(InsufficientTokens))
      else if source == dest then Ok(l)
      else if dst.data.token.amount + amount >= U64_MODULUS then Err(CalleeFailed(Overflow))
      else
        var l1 := l[source := WithAmount(src, src.data.token.amount - amount)];
        Ok(l1[dest := WithAmount(dst, dst.data.token.amount + amount)])
  }

  /** Token program `mint_to_checked`: `amount` new tokens of `mint` to `dest`,
      authorised by the mint authority. */
  function MintTo(env: Env, l: Ledger, mint: Pubkey, dest: Pubkey, authority: Pubkey, amount: u64,
                  decimals: byte, signers: set<Pubkey>): (r: Result<Ledger, ProgramError>)
    ensures r.Ok? <==>
              && IsMint(env, l, mint) && IsTokenAccount(env, l, dest)
              && Get(l, dest).data.token.mint == mint
              && Get(l, mint).data.mintState.decimals == decimals
              && Get(l, mint).data.mintState.mintAuthority == Some(authority) && authority in signers
              && Get(l, mint).data.mintState.supply + amount < U64_MODULUS
              && Get(l, dest).data.token.amount + amount < U64_MODULUS
    ensures r.Ok? ==>
              && Get(r.value, dest) == WithAmount(Get(l, dest), Get(l, dest).data.token.amount + amount)
              && Get(r.value, mint) == Get(l, mint).(data := MintData(Get(l, mint).data.mintState.(
                   supply := Get(l, mint).data.mintState.supply + amount)))
    ensures r.Ok? ==> UnchangedExcept(l, r.value, {mint, dest})
  {
    if !(IsMint(env, l, mint) && IsTokenAccount(env, l, dest)) then Err(CalleeFailed(NotATokenAccount))
    else
      var m := Get(l, mint);
      var dst := Get(l, dest);
      var ms := m.data.mintState;
      if dst.data.token.mint != mint then Err(CalleeFailed(MintMismatch))
      else if ms.decimals != decimals then Err(CalleeFailed(MintMismatch))
      else if ms.mintAuthority != Some(authority) then Err(CalleeFailed(OwnerMismatch))
      else if authority !in signers then Err(CalleeFailed(MissingSignature))
      else if ms.supply + amount >= U64_MODULUS || dst.data.token.amount + amount >= U64_MODULUS then
        Err(CalleeFailed(Overflow))
      else
        var l1 := l[mint := m.(data := MintData(ms.(supply := ms.supply + amount)))];
        Ok(l1[dest := WithAmount(dst, dst.data.token.amount + amount)])
  }

  /** Token program `close_account`: an empty token account is deleted and its
      lamports go to `dest`. */
  function CloseAccount(env: Env, l: Ledger, account: Pubkey, dest: Pubkey, authority: Pubkey,
                        signers: set<Pubkey>): (r: Result<Ledger, ProgramError>)
    ensures r.Ok? <==>
              && IsTokenAccount(env, l, account)
              && Get(l, account).data.token.amount == 0
              && Get(l, account).data.token.owner == authority && authority in signers
              && account != dest
              && Get(l, dest).lamports + Get(l, account).lamports < U64_MODULUS
    ensures r.Ok? ==>
              && Get(r.value, account) == EMPTY
              && Get(r.value, dest) == Get(l, dest).(lamports := Get(l, dest).lamports + Get(l, account).lamports)
    ensures r.Ok? ==> UnchangedExcept(l, r.value, {account, dest})
  {
    if !IsTokenAccount(env, l, account) then Err(CalleeFailed(NotATokenAccount))
    else
      var a := Get(l, account);
      var d := Get(l, dest);
      if a.data.token.amount != 0 then Err(CalleeFailed(NonZeroBalance))
      else if a.data.token.owner != authority then Err(CalleeFailed(OwnerMismatch))
      else if authority !in signers then Err(CalleeFailed(MissingSignature))
      else if account == dest then Err(CalleeFailed(InvalidSeeds))
      else if d.lamports + a.lamports >= U64_MODULUS then Err(CalleeFailed(Overflow))
      else
        var l1 := l[dest := d.(lamports := d.lamports + a.lamports)];
        Ok(l1[account := EMPTY])
  }

  /** Token program `set_authority(MintTokens)`: the current mint authority
      hands minting to `newAuthority`. */
  function SetMintAuthority(env: Env, l: Ledger, mint: Pubkey, newAuthority: Pubkey, current: Pubkey,
                            signers: set<Pubkey>): (r: Result<Ledger, ProgramError>)
    ensures r.Ok? <==>
              && IsMint(env, l, mint)
              && Get(l, mint).data.mintState.mintAuthority == Some(current) && current in signers
    ensures r.Ok? ==>
              Get(r.value, mint) == Get(l, mint).(data := MintData(Get(l, mint).data.mintState.(mintAuthority := Some(newAuthority))))
    ensures r.Ok? ==> UnchangedExcept(l, r.value, {mint})
  {
    if !IsMint(env, l, mint) then Err(CalleeFailed(NotAMint))
    else
      var m := Get(l, mint);
      if m.data.mintState.mintAuthority != Some(current) then Err(CalleeFailed(OwnerMismatch))
      else if current !in signers then Err(CalleeFailed(MissingSignature))
      else Ok(l[mint := m.(data := MintData(m.data.mintState.(mintAuthority := Some(newAuthority))))])
  }

  /** The lamports the associated-token program adds to an address already
      holding `lamports` so that it holds at least `rent`: nothing when it
      already does, the difference otherwise. */
  function TopUp(lamports: nat, rent: nat): (t: nat)
    ensures lamports + t >= rent
    ensures lamports >= rent ==> t == 0
    ensures t > 0 ==> lamports + t == rent
  {
    if lamports >= rent then 0 else rent - lamports
  }

  /** Associated-token program `create`: a zero-balance token account of
      `mint` owned by `wallet`, at the wallet's associated address. The
      address must still belong to the system program and hold no data, but
      it may already hold lamports: `funder` pays only what is missing for
      rent exemption (nothing when the address already holds enough), and
      the lamports already there stay in the new account.
      `ataProgramPassed` is the program account the caller supplied. */
  function CreateAssociatedTokenAccount(env: Env, l: Ledger, funder: Pubkey, ata: Pubkey, wallet: Pubkey,
                                        mint: Pubkey, tokenProgram: Pubkey, ataProgramPassed: Pubkey,
                                        signers: set<Pubkey>): (r: Result<Ledger, ProgramError>)
    ensures r.Ok? <==>
              && ataProgramPassed == env.ataProgram && tokenProgram == env.tokenProgram
              && AssociatedTokenAddress(env, wallet, mint, tokenProgram) == Some(ata)
              && IsMint(env, l, mint) && funder in signers
              && Get(l, ata).owner == SYSTEM_PROGRAM && HasNoData(Get(l, ata))
              && var topUp := TopUp(Get(l, ata).lamports, env.minimumBalance(TOKEN_ACCOUNT_LEN));
                 topUp > 0 ==> funder != ata && IsWallet(l, funder) && Get(l, funder).lamports >= topUp
    ensures r.Ok? ==>
              && Get(l, ata).lamports <= Get(r.value, ata).lamports
              && env.minimumBalance(TOKEN_ACCOUNT_LEN) <= Get(r.value, ata).lamports
              && Get(r.value, ata) == Account(env.tokenProgram,
                                              Get(l, ata).lamports + TopUp(Get(l, ata).lamports, env.minimumBalance(TOKEN_ACCOUNT_LEN)),
                                              TokenData(TokenAccount(mint, wallet, 0)))
    ensures r.Ok? && funder != ata ==>
              Get(r.value, funder)
              == Get(l, funder).(lamports := Get(l, funder).lamports - TopUp(Get(l, ata).lamports, env.minimumBalance(TOKEN_ACCOUNT_LEN)))
    ensures r.Ok? ==> UnchangedExcept(l, r.value, {funder, ata})
  {
    var rent := env.minimumBalance(TOKEN_ACCOUNT_LEN);
    var f := Get(l, funder);
    var a := Get(l, ata);
    var topUp := TopUp(a.lamports, rent);
    if ataProgramPassed != env.ataProgram then Err(CalleeFailed(ProgramNotPassed))
    else if tokenProgram != env.tokenProgram then Err(CalleeFailed(IncorrectProgram))
    else if AssociatedTokenAddress(env, wallet, mint, tokenProgram) != Some(ata) then Err(CalleeFailed(InvalidSeeds))
    else if !IsMint(env, l, mint) then Err(CalleeFailed(NotAMint))
    else if funder !in signers then Err(CalleeFailed(MissingSignature))
    else if a.owner != SYSTEM_PROGRAM then Err(CalleeFailed(IllegalOwner))
    else if !HasNoData(a) then Err(CalleeFailed(AccountAlreadyInUse))
    // the top-up is a system transfer, which cannot borrow one account twice
    else if topUp > 0 && funder == ata then Err(CalleeFailed(AccountBorrowFailed))
    else if topUp > 0 && (!IsWallet(l, funder) || f.lamports < topUp) then Err(CalleeFailed(InsufficientLamports))
    else
      var l1 := l[funder := f.(lamports := f.lamports - topUp)];
      Ok(l1[ata := Account(env.tokenProgram, a.lamports + topUp, TokenData(TokenAccount(mint, wallet, 0)))])
  }
}
