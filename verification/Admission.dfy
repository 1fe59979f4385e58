/** Exactly which instructions a reachable ledger accepts, and which error refuses the others. */
module Admission {
  import opened Prelude
  import opened Sums
  import opened BridgeModel
  import opened Accounting
  import opened Runs

  /** The error an instruction ends with, if any. */
  function Answer(s: State, e: Event): Option<Error> {
    Status(Apply(s, e))
  }

  lemma DepositAnswer(s: State, e: Event)
    requires e.op.OpDepositSpl?
    ensures var payer, mint := e.op.payer, e.op.mint;
            var closed := e.op.escrow == Program && mint == NATIVE_MINT && !s.nativeOpen;
            var used := Key(payer, e.op.id) in s.requests;
            var short := Balance(s.tokens, TokenAccount(User(payer), mint)) < e.op.amount;
            && (Answer(s, e) == None <==> !closed && !used && !short)
            && (Answer(s, e) == Some(AccountMissing) <==> closed)
            && (Answer(s, e) == Some(AccountInUse) <==> !closed && used)
            && (Answer(s, e) == Some(InsufficientFunds) <==> !closed && !used && short)
  {
  }

  lemma DepositSolAnswer(s: State, e: Event)
    requires e.op.OpDepositSol?
    ensures var used := Key(e.op.payer, e.op.id) in s.requests;
            var short := Balance(s.lamports, Wallet(e.op.payer)) < e.op.amount;
            && (Answer(s, e) == None <==> s.nativeOpen && !used && !short)
            && (Answer(s, e) == Some(AccountMissing) <==> !s.nativeOpen)
            && (Answer(s, e) == Some(AccountInUse) <==> s.nativeOpen && used)
            && (Answer(s, e) == Some(InsufficientFunds) <==> s.nativeOpen && !used && short)
  {
  }

  /** A finalised request and one under a live claim are refused as such, whoever asks with whatever bond. */
  lemma ClaimAnswer(r: Run, n: nat, e: Event)
    requires r.FromOpening() && n <= |r.events| && e.op.OpClaim?
    requires e.op.key in r.At(n).requests
    ensures var s := r.At(n);
            var q, c := s.requests[e.op.key], s.config;
            var free := !q.finalized && !(q.claimed && e.now <= q.deadline);
            var funded := c.minBond <= Balance(s.lamports, Wallet(e.op.solver));
            var fits := -TWO_63 <= e.now + c.claimWindow < TWO_63;
            && (Answer(s, e) == None <==> free && 0 < c.minBond && funded && fits)
            && (Answer(s, e) == Some(AlreadyFinalized) <==> q.finalized)
            && (Answer(s, e) == Some(ActiveClaim) <==> q.claimed && e.now <= q.deadline)
            && (Answer(s, e) == Some(BondTooLow) <==> free && c.minBond == 0)
            && (Answer(s, e) == Some(InsufficientFunds) <==> free && 0 < c.minBond && !funded)
            && (Answer(s, e) == Some(MathOverflow) <==> free && 0 < c.minBond && funded && !fits)
  {
    Reachable(r, n);
  }

  /** Once the collector is the owner, neither a bond of zero nor a short vault ever refuses a release. */
  lemma ReleaseAnswer(r: Run, n: nat, e: Event)
    requires r.FromOpening() && n <= |r.events| && e.op.OpRelease?
    requires e.op.key in r.At(n).requests && e.op.collector == r.At(n).config.owner
    ensures var s := r.At(n);
            var q := s.requests[e.op.key];
            var expired := q.claimed && q.deadline < e.now;
            var fits := q.bond * (s.config.slashBps - 10_000) < 10_000;
            && (Answer(s, e) == None <==> expired && e.op.prevSolver == q.solver && fits)
            && (Answer(s, e) == Some(NoClaim) <==> !q.claimed)
            && (Answer(s, e) == Some(ActiveClaim) <==> q.claimed && e.now <= q.deadline)
            && (Answer(s, e) == Some(InvalidOwner) <==> expired && e.op.prevSolver != q.solver)
            && (Answer(s, e) == Some(MathOverflow) <==> expired && e.op.prevSolver == q.solver && !fits)
  {
    Reachable(r, n);
    VaultCoversBonds(r, n, e.op.key);
    SlashFits(r.At(n).requests[e.op.key].bond, r.At(n).config.slashBps);
    hide Slash, Move, Debit, Credit, Balance;
  }

  /**
   * The token account is compared with the stored solver before anything else, and a finalised
   * or unclaimed request stores the default key. So the two errors meant for those requests
   * answer only a token account of the default key; any other is called an invalid owner.
   */
  lemma SettleAnswer(r: Run, n: nat, e: Event)
    requires r.FromOpening() && n <= |r.events| && e.op.OpSettle?
    requires var s := r.At(n);
             && e.op.key in s.requests && e.op.relayer == s.config.owner
             && (e.op.mint == NATIVE_MINT ==> s.nativeOpen)
    ensures var s := r.At(n);
            var q := s.requests[e.op.key];
            var owner, live := e.op.tokenOwner, q.claimed && e.now <= q.deadline;
            var both := owner == q.solver && e.op.wallet == q.solver;
            var paid := q.amountLocked + q.feeLocked <= Balance(s.tokens, TokenAccount(Program, e.op.mint));
            && (Answer(s, e) == None <==> live && both && paid)
            && (Answer(s, e) == Some(RequestAlreadyFinalized) <==> q.finalized && owner == DEFAULT_KEY)
            && (Answer(s, e) == Some(NoClaim) <==> !q.finalized && !q.claimed && owner == DEFAULT_KEY)
            && (Answer(s, e) == Some(ClaimExpired) <==> q.claimed && q.deadline < e.now && owner == q.solver)
            && (Answer(s, e) == Some(InvalidOwner) <==> owner != q.solver || (live && e.op.wallet != q.solver))
            && (Answer(s, e) == Some(InsufficientFunds) <==> live && both && !paid)
  {
    Reachable(r, n);
    VaultCoversBonds(r, n, e.op.key);
    hide Move, Balance;
  }

  lemma DeliverAnswer(s: State, e: Event)
    requires e.op.OpDeliver? || e.op.OpDeliverSol?
    ensures var mint := if e.op.OpDeliver? then e.op.mint else NATIVE_MINT;
            var closed, signed := mint == NATIVE_MINT && !s.nativeOpen, e.op.relayer == s.config.owner;
            var held := e.op.amount <= Balance(s.tokens, TokenAccount(Program, mint));
            && (Answer(s, e) == None <==> !closed && signed && held)
            && (Answer(s, e) == Some(AccountMissing) <==> closed)
            && (Answer(s, e) == Some(ConstraintAddress) <==> !closed && !signed)
            && (Answer(s, e) == Some(InsufficientEscrowBalance) <==> !closed && signed && !held)
  {
  }

  /** What the owner must sign, or receive as collector, is refused otherwise, in any state. */
  lemma Unauthorized(s: State, e: Event)
    requires e.op.OpSetConfig? || e.op.OpSettle? || e.op.OpRelease?
    requires e.op.OpSetConfig? || e.op.key in s.requests
    requires e.op.OpSettle? && e.op.mint == NATIVE_MINT ==> s.nativeOpen
    ensures e.op.OpSetConfig? ==> Answer(s, e) == if e.op.authority == s.config.owner then None else Some(OnlyOwner)
    ensures e.op.OpSettle? ==> (Answer(s, e) == Some(ConstraintAddress) <==> e.op.relayer != s.config.owner)
    ensures e.op.OpRelease? ==> (Answer(s, e) == Some(ConstraintAddress) <==> e.op.collector != s.config.owner)
  {
  }

  /** A request that nobody deposited, or a closed escrow, cannot be named. */
  lemma Unknown(s: State, e: Event)
    requires e.op.OpClaim? || e.op.OpRelease? || e.op.OpSettle?
    ensures Answer(s, e) == Some(AccountMissing)
      <==> e.op.key !in s.requests || (e.op.OpSettle? && e.op.mint == NATIVE_MINT && !s.nativeOpen)
  {
  }
}
