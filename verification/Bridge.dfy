/**
 * The handlers, step by step on mutable accounts. A failed instruction is rolled back
 * by the runtime; each handler is proved to commit exactly what `BridgeModel` says.
 */
module BridgeProgram {
  import opened Prelude
  import opened Sums
  import opened BridgeModel
  import Fees

  class Bridge {
    var config: Config
    var requests: map<Key, Request>
    var lamports: map<Holder, nat>
    var tokens: map<TokenAccount, nat>
    var nativeOpen: bool

    ghost function Ledger(): State
      reads this
    {
      State(config, requests, lamports, tokens, nativeOpen)
    }

    /** `init_config`: the payer becomes the owner; no request can exist before. */
    constructor (payer: Pubkey, feeBps: U16, minFee: U64, maxFee: U64, claimWindow: I64, minBond: U64, slashBps: U16,
                 lamports: map<Holder, nat>, tokens: map<TokenAccount, nat>, nativeOpen: bool)
      ensures Ledger() == State(Config(payer, feeBps, minFee, maxFee, claimWindow, minBond, slashBps),
                                map[], lamports, tokens, nativeOpen)
    {
      config := Config(payer, feeBps, minFee, maxFee, claimWindow, minBond, slashBps);
      requests := map[];
      this.lamports, this.tokens, this.nativeOpen := lamports, tokens, nativeOpen;
    }

    /** A token-program transfer. */
    method TransferTokens(from: TokenAccount, to: TokenAccount, amount: U64) returns (ok: bool)
      modifies this`tokens
      ensures ok <==> amount <= Balance(old(tokens), from)
      ensures tokens == if ok then Move(old(tokens), from, to, amount) else old(tokens)
    {
      ok := amount <= Balance(tokens, from);
      if ok && 0 < amount {
        tokens := tokens[from := Balance(tokens, from) - amount];
        tokens := tokens[to := Balance(tokens, to) + amount];
      }
    }

    /** A system-program transfer. */
    method TransferLamports(from: Holder, to: Holder, amount: U64) returns (ok: bool)
      modifies this`lamports
      ensures ok <==> amount <= Balance(old(lamports), from)
      ensures lamports == if ok then Move(old(lamports), from, to, amount) else old(lamports)
    {
      ok := amount <= Balance(lamports, from);
      if ok && 0 < amount {
        lamports := lamports[from := Balance(lamports, from) - amount];
        lamports := lamports[to := Balance(lamports, to) + amount];
      }
    }

    method DepositAndQueue(now: I64, payer: Pubkey, id: U64, mint: Pubkey, escrow: TokenOwner, amount: U64)
      returns (error: Option<Error>)
      modifies this
      ensures var outcome := DepositSpl(old(Ledger()), now, payer, id, mint, escrow, amount);
              Ledger() == Commit(old(Ledger()), outcome) && error == Status(outcome)
    {
      if escrow == Program && mint == NATIVE_MINT && !nativeOpen {
        return Some(AccountMissing);
      }
      if Key(payer, id) in requests {
        return Some(AccountInUse);
      }
      var fee, net := Fees.ComputeFee(amount, config.feeBps, config.minFee, config.maxFee);
      var ok := TransferTokens(TokenAccount(User(payer), mint), TokenAccount(escrow, mint), amount);
      if !ok {
        return Some(InsufficientFunds);
      }
      requests := requests[Key(payer, id) := Request(payer, mint, net, fee, now, false, DEFAULT_KEY, 0, 0, false)];
      return None;
    }

    method DepositSolAndQueue(now: I64, payer: Pubkey, id: U64, amount: U64) returns (error: Option<Error>)
      modifies this
      ensures var outcome := DepositSol(old(Ledger()), now, payer, id, amount);
              Ledger() == Commit(old(Ledger()), outcome) && error == Status(outcome)
    {
      if !nativeOpen {
        return Some(AccountMissing);
      }
      if Key(payer, id) in requests {
        return Some(AccountInUse);
      }
      var fee, net := Fees.ComputeFee(amount, config.feeBps, config.minFee, config.maxFee);
      if Balance(lamports, Wallet(payer)) < amount {
        return Some(InsufficientFunds);
      }
      if 0 < amount {
        lamports := lamports[Wallet(payer) := Balance(lamports, Wallet(payer)) - amount];
        // The token program reads the new lamports of the wrapped account.
        var wrapped := TokenAccount(Program, NATIVE_MINT);
        tokens := tokens[wrapped := Balance(tokens, wrapped) + amount];
      }
      var req := Request(payer, NATIVE_MINT, net, fee, now, false, DEFAULT_KEY, 0, 0, false);
      requests := requests[Key(payer, id) := req];
      return None;
    }

    method ClaimBridge(now: I64, solver: Pubkey, key: Key) returns (error: Option<Error>)
      modifies this
      ensures var outcome := Claim(old(Ledger()), now, solver, key);
              Ledger() == Commit(old(Ledger()), outcome) && error == Status(outcome)
    {
      if key !in requests {
        return Some(AccountMissing);
      }
      var req := requests[key];
      if req.finalized {
        return Some(AlreadyFinalized);
      }
      if req.claimed {
        if !(req.deadline < now) {
          return Some(ActiveClaim);
        }
      }
      var minBond := config.minBond;
      if !(0 < minBond) {
        return Some(BondTooLow);
      }
      var before := lamports;
      var ok := TransferLamports(Wallet(solver), BondVault(key.id), minBond);
      if !ok {
        return Some(InsufficientFunds);
      }
      req := req.(claimed := true);
      req := req.(solver := solver);
      if !FitsI64(now + config.claimWindow) {
        lamports := before;
        return Some(MathOverflow);
      }
      req := req.(deadline := now + config.claimWindow);
      req := req.(bond := minBond);
      requests := requests[key := req];
      return None;
    }

    /** The lamport cells of a release, debited and credited one after the other. */
    method SplitBond(vault: Holder, bond: U64, collector: Holder, slash: nat, prevSolver: Holder, refund: nat)
      requires bond <= Balance(lamports, vault) && 0 < bond
      modifies this`lamports
      ensures lamports == Credit(Credit(Debit(old(lamports), vault, bond), collector, slash), prevSolver, refund)
    {
      lamports := lamports[vault := Balance(lamports, vault) - bond];
      if 0 < slash {
        lamports := lamports[collector := Balance(lamports, collector) + slash];
      }
      if 0 < refund {
        lamports := lamports[prevSolver := Balance(lamports, prevSolver) + refund];
      }
    }

    method ReleaseExpiredClaim(now: I64, key: Key, prevSolver: Pubkey, collector: Pubkey) returns (error: Option<Error>)
      modifies this
      ensures var outcome := Release(old(Ledger()), now, key, prevSolver, collector);
              Ledger() == Commit(old(Ledger()), outcome) && error == Status(outcome)
    {
      hide Debit, Credit;
      if key !in requests {
        return Some(AccountMissing);
      }
      if collector != config.owner {
        return Some(ConstraintAddress);
      }
      var req := requests[key];
      if !req.claimed {
        return Some(NoClaim);
      }
      if !(req.deadline < now) {
        return Some(ActiveClaim);
      }
      if prevSolver != req.solver {
        return Some(InvalidOwner);
      }
      if !(0 < req.bond) {
        return Some(BondTooLow);
      }
      var slash := req.bond * config.slashBps / 10_000;
      if req.bond < slash {
        return Some(MathOverflow);
      }
      var refund := req.bond - slash;
      var vault := BondVault(key.id);
      if !(req.bond <= Balance(lamports, vault)) {
        return Some(MathOverflow);
      }
      SplitBond(vault, req.bond, Wallet(collector), slash, Wallet(prevSolver), refund);
      req := req.(claimed := false);
      req := req.(solver := DEFAULT_KEY);
      req := req.(deadline := 0);
      req := req.(bond := 0);
      requests := requests[key := req];
      return None;
    }

    /** The lamport cells of a settlement; debiting more than the vault has panics. */
    method ReturnBond(vault: Holder, wallet: Holder, bond: U64) returns (ok: bool)
      modifies this`lamports
      ensures ok <==> bond <= Balance(old(lamports), vault)
      ensures lamports == if ok then Move(old(lamports), vault, wallet, bond) else old(lamports)
    {
      if 0 < bond {
        if Balance(lamports, vault) < bond {
          return false;
        }
        lamports := lamports[vault := Balance(lamports, vault) - bond];
        lamports := lamports[wallet := Balance(lamports, wallet) + bond];
      }
      return true;
    }

    method VerifyAndSettle(now: I64, relayer: Pubkey, key: Key, mint: Pubkey, tokenOwner: Pubkey, wallet: Pubkey)
      returns (error: Option<Error>)
      modifies this
      ensures var outcome := Settle(old(Ledger()), now, relayer, key, mint, tokenOwner, wallet);
              Ledger() == Commit(old(Ledger()), outcome) && error == Status(outcome)
    {
      hide Move, Balance;
      if key !in requests || (mint == NATIVE_MINT && !nativeOpen) {
        return Some(AccountMissing);
      }
      if relayer != config.owner {
        return Some(ConstraintAddress);
      }
      var req := requests[key];
      if tokenOwner != req.solver {
        return Some(InvalidOwner);
      }
      if req.finalized {
        return Some(RequestAlreadyFinalized);
      }
      if !req.claimed {
        return Some(NoClaim);
      }
      if !(now <= req.deadline) {
        return Some(ClaimExpired);
      }
      if wallet != req.solver {
        return Some(InvalidOwner);
      }
      if TWO_64 <= req.amountLocked + req.feeLocked {
        return Some(MathOverflow);
      }
      var payout: U64 := req.amountLocked + req.feeLocked;
      var before := tokens;
      var ok := TransferTokens(TokenAccount(Program, mint), TokenAccount(User(tokenOwner), mint), payout);
      if !ok {
        return Some(InsufficientFunds);
      }
      ok := ReturnBond(BondVault(key.id), Wallet(wallet), req.bond);
      if !ok {
        tokens := before;
        return Some(SubtractionPanic);
      }
      req := req.(finalized := true);
      req := req.(claimed := false);
      req := req.(solver := DEFAULT_KEY);
      req := req.(deadline := 0);
      req := req.(bond := 0);
      requests := requests[key := req];
      return None;
    }

    method DeliverTokens(relayer: Pubkey, mint: Pubkey, recipient: TokenOwner, amount: U64)
      returns (error: Option<Error>)
      modifies this
      ensures var outcome := Deliver(old(Ledger()), relayer, mint, recipient, amount);
              Ledger() == Commit(old(Ledger()), outcome) && error == Status(outcome)
    {
      if mint == NATIVE_MINT && !nativeOpen {
        return Some(AccountMissing);
      }
      if relayer != config.owner {
        return Some(ConstraintAddress);
      }
      if !(amount <= Balance(tokens, TokenAccount(Program, mint))) {
        return Some(InsufficientEscrowBalance);
      }
      var ok := TransferTokens(TokenAccount(Program, mint), TokenAccount(recipient, mint), amount);
      return None;
    }

    /** The test for closing reads the copy of the escrow loaded before the transfer. */
    method DeliverTokensSol(relayer: Pubkey, recipient: TokenOwner, amount: U64) returns (error: Option<Error>)
      modifies this
      ensures var outcome := DeliverSol(old(Ledger()), relayer, recipient, amount);
              Ledger() == Commit(old(Ledger()), outcome) && error == Status(outcome)
    {
      if !nativeOpen {
        return Some(AccountMissing);
      }
      if relayer != config.owner {
        return Some(ConstraintAddress);
      }
      var escrow := TokenAccount(Program, NATIVE_MINT);
      var loaded := Balance(tokens, escrow);
      if !(amount <= loaded) {
        return Some(InsufficientEscrowBalance);
      }
      var ok := TransferTokens(escrow, TokenAccount(recipient, NATIVE_MINT), amount);
      if loaded == 0 {
        nativeOpen := false;
      }
      return None;
    }

    method ChangeConfig(authority: Pubkey, u: Update) returns (error: Option<Error>)
      modifies this
      ensures var outcome := SetConfig(old(Ledger()), authority, u);
              Ledger() == Commit(old(Ledger()), outcome) && error == Status(outcome)
    {
      if config.owner != authority {
        return Some(OnlyOwner);
      }
      if u.feeBps.Some? {
        config := config.(feeBps := u.feeBps.value);
      }
      if u.minFee.Some? {
        config := config.(minFee := u.minFee.value);
      }
      if u.maxFee.Some? {
        config := config.(maxFee := u.maxFee.value);
      }
      if u.claimWindow.Some? {
        config := config.(claimWindow := u.claimWindow.value);
      }
      if u.minBond.Some? {
        config := config.(minBond := u.minBond.value);
      }
      if u.slashBps.Some? {
        config := config.(slashBps := u.slashBps.value);
      }
      return None;
    }

    /** One transaction at an entry point that moves the ledger, committed or rolled back. */
    method Execute(e: Event) returns (error: Option<Error>)
      modifies this
      ensures Ledger() == Exec(old(Ledger()), e) && error == Status(Apply(old(Ledger()), e))
    {
      hide DepositSpl, DepositSol, Claim, Release, Settle, Deliver, DeliverSol, SetConfig;
      match e.op {
        case OpDepositSpl(payer, id, mint, escrow, amount) =>
          error := DepositAndQueue(e.now, payer, id, mint, escrow, amount);
        case OpDepositSol(payer, id, amount) =>
          error := DepositSolAndQueue(e.now, payer, id, amount);
        case OpClaim(solver, key) =>
          error := ClaimBridge(e.now, solver, key);
        case OpRelease(key, prevSolver, collector) =>
          error := ReleaseExpiredClaim(e.now, key, prevSolver, collector);
        case OpSettle(relayer, key, mint, tokenOwner, wallet) =>
          error := VerifyAndSettle(e.now, relayer, key, mint, tokenOwner, wallet);
        case OpDeliver(relayer, mint, recipient, amount) =>
          error := DeliverTokens(relayer, mint, recipient, amount);
        case OpDeliverSol(relayer, recipient, amount) =>
          error := DeliverTokensSol(relayer, recipient, amount);
        case OpSetConfig(authority, update) =>
          error := ChangeConfig(authority, update);
        case OpOpenNative =>
          nativeOpen := true;
          error := None;
      }
    }
  }
}
