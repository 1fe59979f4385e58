/**
 * The ledger of the Solana bridge program and, for every instruction, the state it
 * commits or the error it stops with. Guards are listed in the order they are checked.
 */
module BridgeModel {
  import opened Prelude
  import opened Sums
  import Fees

  datatype Pubkey = Pubkey(id: nat)

  /** `Pubkey::default()`, stored as the solver of an unclaimed request. */
  const DEFAULT_KEY := Pubkey(0)

  /** The mint of wrapped SOL. */
  const NATIVE_MINT := Pubkey(1)

  /** A request account is derived from its owner and id. */
  datatype Key = Key(owner: Pubkey, id: U64)

  /** A bond vault is derived from the request id alone: owners who chose the same id share it. */
  datatype Holder = Wallet(key: Pubkey) | BondVault(id: U64)

  /** Token accounts belong to wallets or to the program's signer account. */
  datatype TokenOwner = User(key: Pubkey) | Program

  datatype TokenAccount = TokenAccount(owner: TokenOwner, mint: Pubkey)

  datatype Config = Config(
    owner: Pubkey, feeBps: U16, minFee: U64, maxFee: U64,
    claimWindow: I64, minBond: U64, slashBps: U16)

  datatype Request = Request(
    payer: Pubkey, mint: Pubkey, amountLocked: U64, feeLocked: U64, createdAt: I64,
    claimed: bool, solver: Pubkey, deadline: I64, bond: U64, finalized: bool)

  /** `nativeOpen` says whether the program's account of wrapped SOL exists. */
  datatype State = State(
    config: Config,
    requests: map<Key, Request>,
    lamports: map<Holder, nat>,
    tokens: map<TokenAccount, nat>,
    nativeOpen: bool)

  datatype Error =
    | AccountMissing | AccountInUse | ConstraintAddress | InvalidOwner | OnlyOwner
    | RequestAlreadyFinalized | AlreadyFinalized | ActiveClaim | NoClaim | ClaimExpired
    | BondTooLow | MathOverflow | InsufficientEscrowBalance | InsufficientFunds
    | SubtractionPanic

  type Outcome = Result<State, Error>

  /** Optional new values of `set_config`. */
  datatype Update = Update(
    feeBps: Option<U16>, minFee: Option<U64>, maxFee: Option<U64>,
    claimWindow: Option<I64>, minBond: Option<U64>, slashBps: Option<U16>)

  function Or<T>(o: Option<T>, default: T): T {
    if o.Some? then o.value else default
  }

  function FeeOf(c: Config, amount: U64): U64 {
    Fees.Fee(amount, c.feeBps, c.minFee, c.maxFee)
  }

  function NewRequest(c: Config, now: I64, payer: Pubkey, mint: Pubkey, amount: U64): Request {
    Request(payer, mint, amount - FeeOf(c, amount), FeeOf(c, amount), now,
            false, DEFAULT_KEY, 0, 0, false)
  }

  /** What an unclaimed request stores about its claim. */
  function Unclaimed(r: Request): Request {
    r.(claimed := false, solver := DEFAULT_KEY, deadline := 0, bond := 0)
  }

  function Gross(r: Request): nat {
    r.amountLocked + r.feeLocked
  }

  function Slash(bond: U64, slashBps: U16): nat {
    bond * slashBps / 10_000
  }

  /** The program's escrow of `mint` exists; only the one of wrapped SOL is ever closed. */
  predicate EscrowOpen(s: State, mint: Pubkey) {
    mint != NATIVE_MINT || s.nativeOpen
  }

  /** SPL deposit: any token account of the mint is accepted as the escrow. */
  function DepositSpl(
    s: State, now: I64, payer: Pubkey, id: U64, mint: Pubkey, escrow: TokenOwner, amount: U64): Outcome
  {
    var source, target := TokenAccount(User(payer), mint), TokenAccount(escrow, mint);
    if escrow == Program && !EscrowOpen(s, mint) then Err(AccountMissing)
    else if Key(payer, id) in s.requests then Err(AccountInUse)
    else if Balance(s.tokens, source) < amount then Err(InsufficientFunds)
    else Ok(s.(tokens := Move(s.tokens, source, target, amount),
               requests := s.requests[Key(payer, id) := NewRequest(s.config, now, payer, mint, amount)]))
  }

  /** SOL deposit: lamports are wrapped into the program's native token account. */
  function DepositSol(s: State, now: I64, payer: Pubkey, id: U64, amount: U64): Outcome {
    if !s.nativeOpen then Err(AccountMissing)
    else if Key(payer, id) in s.requests then Err(AccountInUse)
    else if Balance(s.lamports, Wallet(payer)) < amount then Err(InsufficientFunds)
    else Ok(s.(lamports := Debit(s.lamports, Wallet(payer), amount),
               tokens := Credit(s.tokens, TokenAccount(Program, NATIVE_MINT), amount),
               requests := s.requests[Key(payer, id) := NewRequest(s.config, now, payer, NATIVE_MINT, amount)]))
  }

  /** Claim, or take over an expired claim. */
  function Claim(s: State, now: I64, solver: Pubkey, key: Key): Outcome {
    if key !in s.requests then Err(AccountMissing) else
      var r := s.requests[key];
      if r.finalized then Err(AlreadyFinalized)
      else if r.claimed && now <= r.deadline then Err(ActiveClaim)
      else if s.config.minBond == 0 then Err(BondTooLow)
      else if Balance(s.lamports, Wallet(solver)) < s.config.minBond then Err(InsufficientFunds)
      else if !FitsI64(now + s.config.claimWindow) then Err(MathOverflow)
      else
        var claim := r.(claimed := true, solver := solver,
                        deadline := now + s.config.claimWindow, bond := s.config.minBond);
        Ok(s.(lamports := Move(s.lamports, Wallet(solver), BondVault(key.id), s.config.minBond),
              requests := s.requests[key := claim]))
  }

  /** Release an expired claim: part of the bond goes to the collector, the rest back to the solver. */
  function Release(s: State, now: I64, key: Key, prevSolver: Pubkey, collector: Pubkey): Outcome {
    if key !in s.requests then Err(AccountMissing) else
      var r := s.requests[key];
      var slash := Slash(r.bond, s.config.slashBps);
      var vault := BondVault(key.id);
      if collector != s.config.owner then Err(ConstraintAddress)
      else if !r.claimed then Err(NoClaim)
      else if now <= r.deadline then Err(ActiveClaim)
      else if prevSolver != r.solver then Err(InvalidOwner)
      else if r.bond == 0 then Err(BondTooLow)
      else if r.bond < slash || Balance(s.lamports, vault) < r.bond then Err(MathOverflow)
      else Ok(s.(lamports := Credit(Credit(Debit(s.lamports, vault, r.bond), Wallet(collector), slash),
                                    Wallet(prevSolver), r.bond - slash),
                 requests := s.requests[key := Unclaimed(r)]))
  }

  /** Settle: the solver gets the gross deposit and the bond, and the request is closed. */
  function Settle(
    s: State, now: I64, relayer: Pubkey, key: Key, mint: Pubkey, tokenOwner: Pubkey, wallet: Pubkey): Outcome
  {
    if key !in s.requests || !EscrowOpen(s, mint) then Err(AccountMissing) else
      var r := s.requests[key];
      var escrow, target := TokenAccount(Program, mint), TokenAccount(User(tokenOwner), mint);
      if relayer != s.config.owner then Err(ConstraintAddress)
      else if tokenOwner != r.solver then Err(InvalidOwner)
      else if r.finalized then Err(RequestAlreadyFinalized)
      else if !r.claimed then Err(NoClaim)
      else if r.deadline < now then Err(ClaimExpired)
      else if wallet != r.solver then Err(InvalidOwner)
      else if TWO_64 <= Gross(r) then Err(MathOverflow)
      else if Balance(s.tokens, escrow) < Gross(r) then Err(InsufficientFunds)
      else if Balance(s.lamports, BondVault(key.id)) < r.bond then Err(SubtractionPanic)
      else Ok(s.(tokens := Move(s.tokens, escrow, target, Gross(r)),
                 lamports := Move(s.lamports, BondVault(key.id), Wallet(wallet), r.bond),
                 requests := s.requests[key := Unclaimed(r).(finalized := true)]))
  }

  /** Delivery of an incoming transfer out of the escrow of `mint`. */
  function Deliver(s: State, relayer: Pubkey, mint: Pubkey, recipient: TokenOwner, amount: U64): Outcome {
    var escrow := TokenAccount(Program, mint);
    if !EscrowOpen(s, mint) then Err(AccountMissing)
    else if relayer != s.config.owner then Err(ConstraintAddress)
    else if Balance(s.tokens, escrow) < amount then Err(InsufficientEscrowBalance)
    else Ok(s.(tokens := Move(s.tokens, escrow, TokenAccount(recipient, mint), amount)))
  }

  /** Delivery of wrapped SOL; it also closes the escrow if that held nothing when the accounts were loaded. */
  function DeliverSol(s: State, relayer: Pubkey, recipient: TokenOwner, amount: U64): Outcome {
    match Deliver(s, relayer, NATIVE_MINT, recipient, amount)
    case Err(error) => Err(error)
    case Ok(s') =>
      var loaded := Balance(s.tokens, TokenAccount(Program, NATIVE_MINT));
      Ok(if loaded == 0 then s'.(nativeOpen := false) else s')
  }

  function SetConfig(s: State, authority: Pubkey, u: Update): Outcome {
    if authority != s.config.owner then Err(OnlyOwner)
    else Ok(s.(config := Config(
      s.config.owner,
      Or(u.feeBps, s.config.feeBps), Or(u.minFee, s.config.minFee), Or(u.maxFee, s.config.maxFee),
      Or(u.claimWindow, s.config.claimWindow), Or(u.minBond, s.config.minBond), Or(u.slashBps, s.config.slashBps))))
  }

  /** The instructions, with the accounts and arguments their callers choose. */
  datatype Op =
    | OpDepositSpl(payer: Pubkey, id: U64, mint: Pubkey, escrow: TokenOwner, amount: U64)
    | OpDepositSol(payer: Pubkey, id: U64, amount: U64)
    | OpClaim(solver: Pubkey, key: Key)
    | OpRelease(key: Key, prevSolver: Pubkey, collector: Pubkey)
    | OpSettle(relayer: Pubkey, key: Key, mint: Pubkey, tokenOwner: Pubkey, wallet: Pubkey)
    | OpDeliver(relayer: Pubkey, mint: Pubkey, recipient: TokenOwner, amount: U64)
    | OpDeliverSol(relayer: Pubkey, recipient: TokenOwner, amount: U64)
    | OpSetConfig(authority: Pubkey, update: Update)
    | OpOpenNative // not an instruction of the program: anyone may create its wrapped-SOL account

  /** A transaction and the clock reading it sees. */
  datatype Event = Event(now: I64, op: Op)

  function Apply(s: State, e: Event): Outcome {
    match e.op
    case OpDepositSpl(payer, id, mint, escrow, amount) => DepositSpl(s, e.now, payer, id, mint, escrow, amount)
    case OpDepositSol(payer, id, amount) => DepositSol(s, e.now, payer, id, amount)
    case OpClaim(solver, key) => Claim(s, e.now, solver, key)
    case OpRelease(key, prevSolver, collector) => Release(s, e.now, key, prevSolver, collector)
    case OpSettle(relayer, key, mint, tokenOwner, wallet) => Settle(s, e.now, relayer, key, mint, tokenOwner, wallet)
    case OpDeliver(relayer, mint, recipient, amount) => Deliver(s, relayer, mint, recipient, amount)
    case OpDeliverSol(relayer, recipient, amount) => DeliverSol(s, relayer, recipient, amount)
    case OpSetConfig(authority, update) => SetConfig(s, authority, update)
    case OpOpenNative => Ok(s.(nativeOpen := true))
  }

  /** Transactions are atomic: one that fails leaves everything as it was. */
  function Commit(s: State, o: Outcome): State {
    if o.Ok? then o.value else s
  }

  function Status(o: Outcome): Option<Error> {
    if o.Ok? then None else Some(o.error)
  }

  function Exec(s: State, e: Event): State {
    Commit(s, Apply(s, e))
  }

  predicate Succeeds(s: State, e: Event) {
    Apply(s, e).Ok?
  }
}
