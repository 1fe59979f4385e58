/** What one instruction does to the books: bonds, lamports, tokens and obligations. */
module Accounting {
  import opened Prelude
  import opened Sums
  import opened BridgeModel
  import Fees

  // ---------------------------------------------------------------- requests

  predicate WellFormedRequest(key: Key, r: Request) {
    && r.payer == key.owner
    && Gross(r) < TWO_64
    && (r.claimed ==> !r.finalized && 0 < r.bond)
    && (!r.claimed ==> r.solver == DEFAULT_KEY && r.deadline == 0 && r.bond == 0)
  }

  ghost predicate WellFormed(s: State) {
    forall k :: k in s.requests ==> WellFormedRequest(k, s.requests[k])
  }

  lemma StepKeepsWellFormed(s: State, e: Event)
    requires WellFormed(s)
    ensures WellFormed(Exec(s, e))
  {
    hide Move, Debit, Credit, Balance, Slash;
    match e.op
    case OpDepositSpl(_, _, _, _, _) =>
    case OpDepositSol(_, _, _) =>
    case OpClaim(_, _) =>
    case OpRelease(_, _, _) =>
    case OpSettle(_, _, _, _, _) =>
    case OpDeliver(_, _, _, _) =>
    case OpDeliverSol(_, _, _) =>
    case OpSetConfig(_, _) =>
    case OpOpenNative =>
  }

  /** The instruction, if it succeeds, takes, releases or settles a claim on `k`. */
  predicate Touches(op: Op, k: Key) {
    match op
    case OpClaim(_, key) => key == k
    case OpRelease(key, _, _) => key == k
    case OpSettle(_, key, _, _, _) => key == k
    case _ => false
  }

  /** The request a successful instruction writes. */
  function Target(s: State, e: Event): (k: Option<Key>)
    ensures k.Some? ==> Succeeds(s, e)
  {
    if !Succeeds(s, e) then None else
      match e.op
      case OpDepositSpl(payer, id, _, _, _) => Some(Key(payer, id))
      case OpDepositSol(payer, id, _) => Some(Key(payer, id))
      case OpClaim(_, key) => Some(key)
      case OpRelease(key, _, _) => Some(key)
      case OpSettle(_, key, _, _, _) => Some(key)
      case _ => None
  }

  lemma WritesOneRequest(s: State, e: Event)
    ensures match Target(s, e)
            case None => Exec(s, e).requests == s.requests
            case Some(k) =>
              && k in Exec(s, e).requests
              && Exec(s, e).requests == s.requests[k := Exec(s, e).requests[k]]
              && (k in s.requests ==>
                    && !(e.op.OpDepositSpl? || e.op.OpDepositSol?)
                    && Terms(Exec(s, e).requests[k]) == Terms(s.requests[k]))
  {
    hide Move, Debit, Credit, Balance, Slash;
  }

  /** The part of a request fixed at its deposit. */
  function Terms(r: Request): (Pubkey, Pubkey, U64, U64, I64) {
    (r.payer, r.mint, r.amountLocked, r.feeLocked, r.createdAt)
  }

  /**
   * A request never disappears and never changes its terms. It changes at all only by an
   * instruction on its own key; once finalised never again, and while a claim is live only
   * by its settlement, whatever happens to the configuration or to requests sharing the vault.
   */
  lemma RequestFrame(s: State, e: Event, k: Key)
    requires WellFormed(s) && k in s.requests
    ensures k in Exec(s, e).requests
    ensures Terms(Exec(s, e).requests[k]) == Terms(s.requests[k])
    ensures !(Succeeds(s, e) && Touches(e.op, k)) ==> Exec(s, e).requests[k] == s.requests[k]
    ensures s.requests[k].finalized ==> Exec(s, e).requests[k] == s.requests[k]
    ensures s.requests[k].claimed && e.now <= s.requests[k].deadline && !e.op.OpSettle?
      ==> Exec(s, e).requests[k] == s.requests[k]
  {
    hide Move, Debit, Credit, Balance, Slash;
    match e.op
    case OpDepositSpl(_, _, _, _, _) =>
    case OpDepositSol(_, _, _) =>
    case OpClaim(_, _) =>
    case OpRelease(_, _, _) =>
    case OpSettle(_, _, _, _, _) =>
    case OpDeliver(_, _, _, _) =>
    case OpDeliverSol(_, _, _) =>
    case OpSetConfig(_, _) =>
    case OpOpenNative =>
  }

  predicate DepositsTo(op: Op, k: Key) {
    (op.OpDepositSpl? || op.OpDepositSol?) && Key(op.payer, op.id) == k
  }

  predicate SettlesOn(op: Op, k: Key) {
    op.OpSettle? && op.key == k
  }

  /** The fee of a deposit under this configuration. */
  predicate IsFeeUnder(c: Config, fee: nat, amount: U64) {
    Fees.IsFee(fee, amount, c.feeBps, c.minFee, c.maxFee)
  }

  lemma FeeOfIsFee(c: Config, amount: U64)
    ensures IsFeeUnder(c, FeeOf(c, amount), amount)
  {
    Fees.FeeShare(FeeOf(c, amount), amount, c.feeBps, c.minFee, c.maxFee);
  }

  /** A deposit opens a request with its gross amount and today's fee; only a settlement closes one. */
  lemma Lifecycle(s: State, e: Event, k: Key)
    requires WellFormed(s)
    ensures k in Exec(s, e).requests <==> k in s.requests || (Succeeds(s, e) && DepositsTo(e.op, k))
    ensures k in s.requests ==> !(Succeeds(s, e) && DepositsTo(e.op, k))
    ensures Succeeds(s, e) && SettlesOn(e.op, k) ==> k in s.requests && !s.requests[k].finalized
    ensures k in s.requests ==>
              (Exec(s, e).requests[k].finalized <==> s.requests[k].finalized || (Succeeds(s, e) && SettlesOn(e.op, k)))
    ensures Succeeds(s, e) && DepositsTo(e.op, k) ==>
              var q := Exec(s, e).requests[k];
              && q.amountLocked + q.feeLocked == e.op.amount && IsFeeUnder(s.config, q.feeLocked, e.op.amount)
              && q.mint == (if e.op.OpDepositSpl? then e.op.mint else NATIVE_MINT)
              && q.createdAt == e.now && !q.finalized
  {
    hide Move, Debit, Credit, Balance, Slash, IsFeeUnder, FeeOf;
    if DepositsTo(e.op, k) {
      FeeOfIsFee(s.config, e.op.amount);
    }
    match e.op
    case OpDepositSpl(_, _, _, _, _) =>
    case OpDepositSol(_, _, _) =>
    case OpClaim(_, _) =>
    case OpRelease(_, _, _) =>
    case OpSettle(_, _, _, _, _) =>
    case OpDeliver(_, _, _, _) =>
    case OpDeliverSol(_, _, _) =>
    case OpSetConfig(_, _) =>
    case OpOpenNative =>
  }

  // ---------------------------------------------------------------- balances

  /** What a transfer of `x` adds to account `a`. */
  function Moved<K(==)>(from: K, to: K, x: nat, a: K): int {
    (if a == to then x else 0) - (if a == from then x else 0)
  }

  function TokenChange(s: State, e: Event, a: TokenAccount): int {
    if !Succeeds(s, e) then 0 else
      match e.op
      case OpDepositSpl(payer, _, mint, escrow, amount) =>
        Moved(TokenAccount(User(payer), mint), TokenAccount(escrow, mint), amount, a)
      case OpDepositSol(_, _, amount) => if a == TokenAccount(Program, NATIVE_MINT) then amount else 0
      case OpSettle(_, key, mint, owner, _) =>
        Moved(TokenAccount(Program, mint), TokenAccount(User(owner), mint), Gross(s.requests[key]), a)
      case OpDeliver(_, mint, recipient, amount) =>
        Moved(TokenAccount(Program, mint), TokenAccount(recipient, mint), amount, a)
      case OpDeliverSol(_, recipient, amount) =>
        Moved(TokenAccount(Program, NATIVE_MINT), TokenAccount(recipient, NATIVE_MINT), amount, a)
      case _ => 0
  }

  function LamportChange(s: State, e: Event, h: Holder): int {
    if !Succeeds(s, e) then 0 else
      match e.op
      case OpDepositSol(payer, _, amount) => if h == Wallet(payer) then 0 - amount else 0
      case OpClaim(solver, key) => Moved(Wallet(solver), BondVault(key.id), s.config.minBond, h)
      case OpRelease(key, prevSolver, collector) =>
        var bond := s.requests[key].bond;
        var slash := Slash(bond, s.config.slashBps);
        Moved(BondVault(key.id), Wallet(collector), slash, h)
        + Moved(BondVault(key.id), Wallet(prevSolver), bond - slash, h)
      case OpSettle(_, key, _, _, wallet) => Moved(BondVault(key.id), Wallet(wallet), s.requests[key].bond, h)
      case _ => 0
  }

  /** The exact effect of an instruction on every token account. */
  lemma TokensStep(s: State, e: Event, a: TokenAccount)
    ensures Balance(Exec(s, e).tokens, a) == Balance(s.tokens, a) + TokenChange(s, e, a)
  {
    if Succeeds(s, e) {
      hide Move, Credit, Balance, NewRequest, Unclaimed;
      match e.op
      case OpDepositSpl(payer, _, mint, escrow, amount) =>
        MoveBalance(s.tokens, TokenAccount(User(payer), mint), TokenAccount(escrow, mint), amount, a);
      case OpDepositSol(_, _, amount) =>
        CreditBalance(s.tokens, TokenAccount(Program, NATIVE_MINT), amount, a);
      case OpClaim(_, _) =>
      case OpRelease(_, _, _) =>
      case OpSettle(_, key, mint, owner, _) =>
        MoveBalance(s.tokens, TokenAccount(Program, mint), TokenAccount(User(owner), mint), Gross(s.requests[key]), a);
      case OpDeliver(_, mint, recipient, amount) =>
        MoveBalance(s.tokens, TokenAccount(Program, mint), TokenAccount(recipient, mint), amount, a);
      case OpDeliverSol(_, recipient, amount) =>
        MoveBalance(s.tokens, TokenAccount(Program, NATIVE_MINT), TokenAccount(recipient, NATIVE_MINT), amount, a);
      case OpSetConfig(_, _) =>
      case OpOpenNative =>
    }
  }

  /** The exact effect of an instruction on every wallet and vault. */
  lemma LamportsStep(s: State, e: Event, h: Holder)
    ensures Balance(Exec(s, e).lamports, h) == Balance(s.lamports, h) + LamportChange(s, e, h)
  {
    if Succeeds(s, e) {
      hide Move, Credit, Debit, Balance, NewRequest, Unclaimed, Slash, FitsI64, Gross;
      match e.op
      case OpDepositSpl(_, _, _, _, _) =>
      case OpDepositSol(payer, _, amount) => DebitBalance(s.lamports, Wallet(payer), amount, h);
      case OpClaim(solver, key) =>
        MoveBalance(s.lamports, Wallet(solver), BondVault(key.id), s.config.minBond, h);
      case OpRelease(key, prevSolver, collector) =>
        ReleaseLamports(s, e.now, key, prevSolver, collector, h);
      case OpSettle(_, key, _, _, wallet) =>
        MoveBalance(s.lamports, BondVault(key.id), Wallet(wallet), s.requests[key].bond, h);
      case OpDeliver(_, _, _, _) =>
      case OpDeliverSol(_, _, _) =>
      case OpSetConfig(_, _) =>
      case OpOpenNative =>
    }
  }

  lemma ReleaseLamports(s: State, now: I64, key: Key, prevSolver: Pubkey, collector: Pubkey, h: Holder)
    requires Release(s, now, key, prevSolver, collector).Ok?
    ensures var s' := Release(s, now, key, prevSolver, collector).value;
            var bond := s.requests[key].bond;
            var slash := Slash(bond, s.config.slashBps);
            && slash <= bond
            && Balance(s'.lamports, h) == Balance(s.lamports, h)
               + Moved(BondVault(key.id), Wallet(collector), slash, h)
               + Moved(BondVault(key.id), Wallet(prevSolver), bond - slash, h)
  {
    hide Slash;
    var bond := s.requests[key].bond;
    SplitBalance(s.lamports, BondVault(key.id), Wallet(collector), Wallet(prevSolver), bond,
                 Slash(bond, s.config.slashBps), h);
  }

  // ------------------------------------------------------------------- bonds

  /** Bonds recorded on the requests that share the vault of `id`. */
  function BondsOf(s: State, id: U64): map<Key, nat> {
    map k | k in s.requests && k.id == id :: s.requests[k].bond
  }

  ghost function Held(s: State, id: U64): int {
    Sum(BondsOf(s, id))
  }

  function Vault(s: State, id: U64): nat {
    Balance(s.lamports, BondVault(id))
  }

  /** Movements of bonds kept in the vault of one request id. */
  datatype Flow = Flow(posted: nat, returned: nat, refunded: nat, slashed: nat, left: nat) {
    function Plus(f: Flow): Flow {
      Flow(posted + f.posted, returned + f.returned, refunded + f.refunded, slashed + f.slashed, left + f.left)
    }
  }

  const NO_FLOW := Flow(0, 0, 0, 0, 0)

  /** `left` is the bond of an expired claim that was taken over without being released. */
  function FlowOf(s: State, e: Event, id: U64): Flow {
    if !Succeeds(s, e) then NO_FLOW else
      match e.op
      case OpClaim(_, key) =>
        if key.id != id then NO_FLOW else NO_FLOW.(posted := s.config.minBond, left := s.requests[key].bond)
      case OpRelease(key, _, _) =>
        if key.id != id then NO_FLOW else
          var bond := s.requests[key].bond;
          var slash := Slash(bond, s.config.slashBps);
          NO_FLOW.(slashed := slash, refunded := bond - slash)
      case OpSettle(_, key, _, _, _) =>
        if key.id != id then NO_FLOW else NO_FLOW.(returned := s.requests[key].bond)
      case _ => NO_FLOW
  }

  lemma BondsUpdate(s: State, k: Key, r: Request, id: U64)
    ensures BondsOf(s.(requests := s.requests[k := r]), id)
         == if k.id == id then BondsOf(s, id)[k := r.bond] else BondsOf(s, id)
  {
  }

  lemma HeldUpdate(s: State, s': State, k: Key, r: Request, id: U64)
    requires s'.requests == s.requests[k := r]
    ensures Held(s', id) == Held(s, id)
      + (if k.id == id then r.bond - (if k in s.requests then s.requests[k].bond else 0) else 0)
  {
    if k.id == id {
      SumUpdate(BondsOf(s, id), k, r.bond);
    }
    hide Sum;
    BondsUpdate(s, k, r, id);
    assert BondsOf(s', id) == BondsOf(s.(requests := s.requests[k := r]), id);
  }

  /** Each instruction moves recorded bonds and vault lamports by the same flow. */
  lemma BondStep(s: State, e: Event, id: U64)
    requires WellFormed(s)
    ensures var f := FlowOf(s, e, id);
            && Held(Exec(s, e), id) == Held(s, id) + f.posted - f.returned - f.refunded - f.slashed - f.left
            && Vault(Exec(s, e), id) == Vault(s, id) + f.posted - f.returned - f.refunded - f.slashed
  {
    HeldStep(s, e, id);
    VaultStep(s, e, id);
  }

  lemma HeldStep(s: State, e: Event, id: U64)
    requires WellFormed(s)
    ensures var f := FlowOf(s, e, id);
            Held(Exec(s, e), id) == Held(s, id) + f.posted - f.returned - f.refunded - f.slashed - f.left
  {
    hide Move, Debit, Credit, Balance, Held, Slash;
    var s' := Exec(s, e);
    WritesOneRequest(s, e);
    match Target(s, e)
    case Some(k) => HeldUpdate(s, s', k, s'.requests[k], id);
    case None => SameHeld(s, s', id);
  }

  lemma SameHeld(s: State, s': State, id: U64)
    requires s'.requests == s.requests
    ensures Held(s', id) == Held(s, id)
  {
    assert BondsOf(s', id) == BondsOf(s, id);
  }

  lemma VaultStep(s: State, e: Event, id: U64)
    ensures var f := FlowOf(s, e, id);
            Vault(Exec(s, e), id) == Vault(s, id) + f.posted - f.returned - f.refunded - f.slashed
  {
    hide Exec, Succeeds, Balance, Slash;
    LamportsStep(s, e, BondVault(id));
  }

  lemma HeldNatural(s: State, id: U64)
    ensures 0 <= Held(s, id)
  {
    SumBoundsEntry(BondsOf(s, id), Key(DEFAULT_KEY, id));
  }

  lemma HeldCoversBond(s: State, k: Key)
    requires k in s.requests
    ensures s.requests[k].bond <= Held(s, k.id)
  {
    SumBoundsEntry(BondsOf(s, k.id), k);
  }

  // ------------------------------------------------- lamports and token supply

  function TokensOf(tokens: map<TokenAccount, nat>, mint: Pubkey): map<TokenAccount, nat> {
    map a | a in tokens && a.mint == mint :: tokens[a]
  }

  ghost function Supply(s: State, mint: Pubkey): int {
    Sum(TokensOf(s.tokens, mint))
  }

  /** All lamports, counting those wrapped as native tokens. */
  ghost function TotalLamports(s: State): int {
    Sum(s.lamports) + Supply(s, NATIVE_MINT)
  }

  lemma SupplyCredit(tokens: map<TokenAccount, nat>, a: TokenAccount, x: nat, mint: Pubkey)
    ensures Sum(TokensOf(Credit(tokens, a, x), mint)) == Sum(TokensOf(tokens, mint)) + (if a.mint == mint then x else 0)
  {
    var after := TokensOf(Credit(tokens, a, x), mint);
    if a.mint == mint {
      assert after == Credit(TokensOf(tokens, mint), a, x);
      SumCredit(TokensOf(tokens, mint), a, x);
    } else {
      assert after == TokensOf(tokens, mint);
    }
  }

  lemma SupplyMove(tokens: map<TokenAccount, nat>, a: TokenAccount, b: TokenAccount, x: nat, mint: Pubkey)
    requires a.mint == b.mint && x <= Balance(tokens, a)
    ensures Sum(TokensOf(Move(tokens, a, b, x), mint)) == Sum(TokensOf(tokens, mint))
  {
    var debited := Debit(tokens, a, x);
    if a.mint == mint {
      assert TokensOf(debited, mint) == Debit(TokensOf(tokens, mint), a, x);
      SumDebit(TokensOf(tokens, mint), a, x);
    } else {
      assert TokensOf(debited, mint) == TokensOf(tokens, mint);
    }
    SupplyCredit(debited, b, x, mint);
  }

  /** Lamports that a successful SOL deposit turns into tokens. */
  function Wrapped(op: Op, mint: Pubkey): nat {
    if op.OpDepositSol? && mint == NATIVE_MINT then op.amount else 0
  }

  /** No instruction creates or destroys lamports or tokens, also when collector and solver coincide. */
  lemma StepConserves(s: State, e: Event, mint: Pubkey)
    ensures TotalLamports(Exec(s, e)) == TotalLamports(s)
    ensures mint != NATIVE_MINT ==> Supply(Exec(s, e), mint) == Supply(s, mint)
  {
    if Succeeds(s, e) {
      forall m | m in {mint, NATIVE_MINT}
        ensures Supply(Exec(s, e), m) == Supply(s, m) + Wrapped(e.op, m)
      {
        StepSupply(s, e, m);
      }
      StepSystemLamports(s, e);
    }
  }

  lemma StepSupply(s: State, e: Event, m: Pubkey)
    requires Succeeds(s, e)
    ensures Supply(Exec(s, e), m) == Supply(s, m) + Wrapped(e.op, m)
  {
    hide Sum, Balance, Move, Credit, Slash, NewRequest, Unclaimed;
    match e.op
    case OpDepositSpl(payer, _, mint, escrow, amount) =>
      SupplyMove(s.tokens, TokenAccount(User(payer), mint), TokenAccount(escrow, mint), amount, m);
    case OpDepositSol(_, _, amount) =>
      SupplyCredit(s.tokens, TokenAccount(Program, NATIVE_MINT), amount, m);
    case OpSettle(_, key, mint, owner, _) =>
      SupplyMove(s.tokens, TokenAccount(Program, mint), TokenAccount(User(owner), mint), Gross(s.requests[key]), m);
    case OpDeliver(_, mint, recipient, amount) =>
      SupplyMove(s.tokens, TokenAccount(Program, mint), TokenAccount(recipient, mint), amount, m);
    case OpDeliverSol(_, recipient, amount) =>
      SupplyMove(s.tokens, TokenAccount(Program, NATIVE_MINT), TokenAccount(recipient, NATIVE_MINT), amount, m);
    case _ =>
  }

  lemma StepSystemLamports(s: State, e: Event)
    requires Succeeds(s, e)
    ensures Sum(Exec(s, e).lamports) == Sum(s.lamports) - if e.op.OpDepositSol? then e.op.amount else 0
  {
    hide Sum, Slash, Balance;
    match e.op
    case OpDepositSol(payer, _, amount) => SumDebit(s.lamports, Wallet(payer), amount);
    case OpClaim(solver, key) => SumMove(s.lamports, Wallet(solver), BondVault(key.id), s.config.minBond);
    case OpRelease(key, prevSolver, collector) =>
      var r := s.requests[key];
      var slash := Slash(r.bond, s.config.slashBps);
      SumSplit(s.lamports, BondVault(key.id), Wallet(collector), Wallet(prevSolver), r.bond, slash);
    case OpSettle(_, key, _, _, wallet) => SumMove(s.lamports, BondVault(key.id), Wallet(wallet), s.requests[key].bond);
    case _ =>
  }

  // ------------------------------------------------------------- obligations

  /** What is still owed on unfinalised requests in `mint`. */
  function DebtsOf(s: State, mint: Pubkey): map<Key, nat> {
    map k | k in s.requests && !s.requests[k].finalized && s.requests[k].mint == mint :: Gross(s.requests[k])
  }

  ghost function Owed(s: State, mint: Pubkey): int {
    Sum(DebtsOf(s, mint))
  }

  function Escrow(s: State, mint: Pubkey): nat {
    Balance(s.tokens, TokenAccount(Program, mint))
  }

  ghost function Surplus(s: State, mint: Pubkey): int {
    Escrow(s, mint) - Owed(s, mint)
  }

  /**
   * The exact effect of an instruction on the surplus of `mint`. Deposits into another
   * escrow and settlements in another mint are the only ones besides deliveries that count.
   */
  function SurplusChange(s: State, e: Event, mint: Pubkey): int {
    if !Succeeds(s, e) then 0 else
      match e.op
      case OpDepositSpl(_, _, m, escrow, amount) => if m == mint && escrow != Program then 0 - amount else 0
      case OpSettle(_, key, m, _, _) =>
        var r := s.requests[key];
        (if r.mint == mint then Gross(r) else 0) - (if m == mint then Gross(r) else 0)
      case OpDeliver(_, m, recipient, amount) => if m == mint && recipient != Program then 0 - amount else 0
      case OpDeliverSol(_, recipient, amount) =>
        if NATIVE_MINT == mint && recipient != Program then 0 - amount else 0
      case _ => 0
  }

  lemma OwedUpdate(s: State, s': State, k: Key, r: Request, mint: Pubkey)
    requires s'.requests == s.requests[k := r]
    requires k in s.requests ==> s.requests[k].mint == r.mint && !s.requests[k].finalized
    ensures Owed(s', mint) == Owed(s, mint)
      + (if r.mint == mint && !r.finalized then Gross(r) else 0)
      - (if r.mint == mint && k in s.requests then Gross(s.requests[k]) else 0)
  {
    var before, after := DebtsOf(s, mint), DebtsOf(s', mint);
    if r.mint != mint {
      assert after == before;
    } else if r.finalized {
      assert after == before - {k};
      if k in before {
        SumTakesOut(before, k);
      } else {
        assert after == before;
      }
    } else {
      assert after == before[k := Gross(r)];
      SumUpdate(before, k, Gross(r));
    }
  }

  lemma SurplusStep(s: State, e: Event, mint: Pubkey)
    requires WellFormed(s)
    ensures Surplus(Exec(s, e), mint) == Surplus(s, mint) + SurplusChange(s, e, mint)
  {
    OwedStep(s, e, mint);
    EscrowStep(s, e, mint);
  }

  function PaidOn(s: State, e: Event, mint: Pubkey): nat {
    if Succeeds(s, e) && e.op.OpSettle? && s.requests[e.op.key].mint == mint then Gross(s.requests[e.op.key]) else 0
  }

  function Deposited(s: State, e: Event, mint: Pubkey): nat {
    if !Succeeds(s, e) then 0
    else if e.op.OpDepositSpl? && e.op.mint == mint then e.op.amount
    else if e.op.OpDepositSol? && NATIVE_MINT == mint then e.op.amount
    else 0
  }

  lemma OwedStep(s: State, e: Event, mint: Pubkey)
    requires WellFormed(s)
    ensures Owed(Exec(s, e), mint) == Owed(s, mint) + Deposited(s, e, mint) - PaidOn(s, e, mint)
  {
    hide Move, Debit, Credit, Balance, Slash, Owed;
    var s' := Exec(s, e);
    WritesOneRequest(s, e);
    match Target(s, e)
    case Some(k) => OwedUpdate(s, s', k, s'.requests[k], mint);
    case None => SameOwed(s, s', mint);
  }

  lemma SameOwed(s: State, s': State, mint: Pubkey)
    requires s'.requests == s.requests
    ensures Owed(s', mint) == Owed(s, mint)
  {
    assert DebtsOf(s', mint) == DebtsOf(s, mint);
  }

  lemma EscrowStep(s: State, e: Event, mint: Pubkey)
    ensures Escrow(Exec(s, e), mint)
         == Escrow(s, mint) + Deposited(s, e, mint) - PaidOn(s, e, mint) + SurplusChange(s, e, mint)
  {
    hide Exec, Succeeds, Balance;
    TokensStep(s, e, TokenAccount(Program, mint));
  }

  /** A non-negative surplus covers every single open request. */
  lemma SurplusCovers(s: State, k: Key)
    requires k in s.requests && !s.requests[k].finalized
    requires 0 <= Surplus(s, s.requests[k].mint)
    ensures Gross(s.requests[k]) <= Escrow(s, s.requests[k].mint)
  {
    SumBoundsEntry(DebtsOf(s, s.requests[k].mint), k);
  }
}
