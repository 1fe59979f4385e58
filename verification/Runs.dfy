/** Whole histories of the bridge: any sequence of transactions by anyone, in any order. */
module Runs {
  import opened Prelude
  import opened Sums
  import opened BridgeModel
  import opened Accounting

  /** Tokens of `mint` that leave the program by a delivery. */
  function DeliveredBy(s: State, e: Event, mint: Pubkey): nat {
    if !Succeeds(s, e) then 0 else
      match e.op
      case OpDeliver(_, m, recipient, amount) => if m == mint && recipient != Program then amount else 0
      case OpDeliverSol(_, recipient, amount) => if NATIVE_MINT == mint && recipient != Program then amount else 0
      case _ => 0
  }

  datatype Run = Run(start: State, events: seq<Event>) {

    /** The ledger before event `n`. */
    function At(n: nat): State
      requires n <= |events|
    {
      if n == 0 then start else Exec(At(n - 1), events[n - 1])
    }

    /** A history that begins before any deposit; balances and configuration are arbitrary. */
    ghost predicate FromOpening() {
      start.requests == map[]
    }

    ghost predicate Monotone() {
      forall i, j :: 0 <= i <= j < |events| ==> events[i].now <= events[j].now
    }

    predicate Did(i: nat) {
      i < |events| && Succeeds(At(i), events[i])
    }

    predicate Claims(i: nat, k: Key) {
      Did(i) && events[i].op.OpClaim? && events[i].op.key == k
    }

    predicate Settles(i: nat, k: Key) {
      Did(i) && SettlesOn(events[i].op, k)
    }

    predicate Deposits(i: nat, k: Key) {
      Did(i) && DepositsTo(events[i].op, k)
    }

    /** The window a claim opens: from its own time to this deadline. */
    function Deadline(i: nat): int
      requires i < |events|
    {
      events[i].now + At(i).config.claimWindow
    }

    /** Time `t` lies in the window of claim `i`. */
    predicate Open(i: nat, t: int)
      requires i < |events|
    {
      events[i].now <= t <= Deadline(i)
    }

    function Flows(n: nat, id: U64): Flow
      requires n <= |events|
    {
      if n == 0 then NO_FLOW else Flows(n - 1, id).Plus(FlowOf(At(n - 1), events[n - 1], id))
    }

    /** Tokens delivered out of the escrow of `mint`. */
    function Delivered(n: nat, mint: Pubkey): nat
      requires n <= |events|
    {
      if n == 0 then 0 else
        Delivered(n - 1, mint) + DeliveredBy(At(n - 1), events[n - 1], mint)
    }

    /** Everything the settlements of `k` paid out. */
    function Paid(n: nat, k: Key): nat
      requires n <= |events|
    {
      if n == 0 then 0 else
        Paid(n - 1, k) + if Settles(n - 1, k) then Gross(At(n - 1).requests[k]) else 0
    }

    /** Everything the deposits of `k` locked. */
    function Locked(n: nat, k: Key): nat
      requires n <= |events|
    {
      if n == 0 then 0 else
        Locked(n - 1, k) + if Deposits(n - 1, k) then events[n - 1].op.amount else 0
    }

    /** The claim on `k` standing before event `n` is the one made by event `c`, untouched since. */
    ghost predicate Stands(n: nat, k: Key, c: nat)
      requires n <= |events|
    {
      && c < n && Claims(c, k)
      && (forall j :: c < j < n && Did(j) ==> !Touches(events[j].op, k))
      && k in At(n).requests
      && var q := At(n).requests[k];
      && q.claimed && q.solver == events[c].op.solver
      && q.deadline == Deadline(c) && q.bond == At(c).config.minBond
    }

    /** Event `i` ends the claim made by event `c`. */
    ghost predicate Ends(i: nat, k: Key, c: nat) {
      Did(i) && Touches(events[i].op, k) && Stands(i, k, c)
    }
  }

  // ------------------------------------------------------------- reachability

  lemma {:induction false} Reachable(r: Run, n: nat)
    requires r.FromOpening() && n <= |r.events|
    ensures WellFormed(r.At(n))
  {
    if 0 < n {
      Reachable(r, n - 1);
      StepKeepsWellFormed(r.At(n - 1), r.events[n - 1]);
    }
  }

  /**
   * What a stored request looks like: a claim is on an open request and bonded, and without
   * one no solver, deadline or bond is left, whether it was released, settled or never made.
   */
  lemma RequestShape(r: Run, n: nat, k: Key)
    requires r.FromOpening() && n <= |r.events| && k in r.At(n).requests
    ensures var q := r.At(n).requests[k];
            && q.payer == k.owner && q.amountLocked + q.feeLocked < TWO_64
            && (q.claimed ==> !q.finalized && 0 < q.bond)
            && (!q.claimed ==> q.solver == DEFAULT_KEY && q.deadline == 0 && q.bond == 0)
  {
    Reachable(r, n);
  }

  /** Requests are never lost and keep their terms; a finalised one is never touched again. */
  lemma {:induction false} RequestPersists(r: Run, i: nat, n: nat, k: Key)
    requires r.FromOpening() && i <= n <= |r.events| && k in r.At(i).requests
    ensures k in r.At(n).requests && Terms(r.At(n).requests[k]) == Terms(r.At(i).requests[k])
    ensures r.At(i).requests[k].finalized ==> r.At(n).requests[k] == r.At(i).requests[k]
    decreases n
  {
    if i < n {
      RequestPersists(r, i, n - 1, k);
      Reachable(r, n - 1);
      RequestFrame(r.At(n - 1), r.events[n - 1], k);
    }
  }

  lemma {:induction false} SamePrefix(r: Run, r': Run, n: nat)
    requires r'.start == r.start && n <= |r.events| <= |r'.events| && r'.events[..n] == r.events[..n]
    ensures r'.At(n) == r.At(n)
  {
    if 0 < n {
      assert r'.events[..n][n - 1] == r.events[..n][n - 1];
      assert r'.events[..n - 1] == r'.events[..n][..n - 1] == r.events[..n][..n - 1] == r.events[..n - 1];
      SamePrefix(r, r', n - 1);
    }
  }

  // -------------------------------------------------------------------- bonds

  /** Posted bonds are held, returned, refunded, slashed or left behind; the vault shows it. */
  lemma {:induction false} BondLedger(r: Run, n: nat, id: U64)
    requires r.FromOpening() && n <= |r.events|
    ensures var f := r.Flows(n, id);
            && f.posted == Held(r.At(n), id) + f.returned + f.refunded + f.slashed + f.left
            && Vault(r.At(n), id) == Vault(r.start, id) + Held(r.At(n), id) + f.left
  {
    if n == 0 {
      assert BondsOf(r.start, id) == map[];
    } else {
      BondLedger(r, n - 1, id);
      Reachable(r, n - 1);
      BondStep(r.At(n - 1), r.events[n - 1], id);
    }
  }

  /** What takeovers leave behind never leaves the vault again. */
  lemma {:induction false} LeftBehindStays(r: Run, i: nat, n: nat, id: U64)
    requires r.FromOpening() && i <= n <= |r.events|
    ensures r.Flows(i, id).left <= r.Flows(n, id).left
    ensures Vault(r.start, id) + r.Flows(i, id).left <= Vault(r.At(n), id)
    decreases n
  {
    if i < n {
      LeftBehindStays(r, i, n - 1, id);
    }
    BondLedger(r, n, id);
    HeldNatural(r.At(n), id);
  }

  /** However many owners share a vault, it holds the bond of every standing claim. */
  lemma VaultCoversBonds(r: Run, n: nat, k: Key)
    requires r.FromOpening() && n <= |r.events| && k in r.At(n).requests
    ensures r.At(n).requests[k].bond <= Vault(r.At(n), k.id)
  {
    BondLedger(r, n, k.id);
    HeldCoversBond(r.At(n), k);
  }

  /** In every reachable state an expired claim can be released unless the slash rate exceeds the bond. */
  lemma ReleaseSucceedsIff(r: Run, n: nat, now: I64, k: Key, prevSolver: Pubkey, collector: Pubkey)
    requires r.FromOpening() && n <= |r.events| && k in r.At(n).requests
    ensures var s := r.At(n);
            var q := s.requests[k];
            Release(s, now, k, prevSolver, collector).Ok?
            <==> && collector == s.config.owner
                 && q.claimed && q.deadline < now && prevSolver == q.solver
                 && q.bond * (s.config.slashBps - 10_000) < 10_000
  {
    Reachable(r, n);
    VaultCoversBonds(r, n, k);
    SlashFits(r.At(n).requests[k].bond, r.At(n).config.slashBps);
  }

  lemma SlashFits(bond: U64, bps: U16)
    ensures Slash(bond, bps) <= bond <==> bond * (bps - 10_000) < 10_000
    ensures bps <= 10_000 ==> Slash(bond, bps) <= bond
  {
    assert bond * (bps - 10_000) == bond * bps - bond * 10_000;
    if bps <= 10_000 {
      assert bond * bps <= bond * 10_000;
    }
  }

  /** A release empties the claim, pays out the whole bond and slashes exactly the configured share. */
  lemma ReleaseSplitsBond(s: State, now: I64, k: Key, prevSolver: Pubkey, collector: Pubkey)
    requires Release(s, now, k, prevSolver, collector).Ok?
    ensures var s' := Release(s, now, k, prevSolver, collector).value;
            var bond := s.requests[k].bond;
            && Vault(s', k.id) == Vault(s, k.id) - bond
            && (prevSolver == collector ==>
                 Balance(s'.lamports, Wallet(collector)) == Balance(s.lamports, Wallet(collector)) + bond)
            && (prevSolver != collector ==>
                 var gain := Balance(s'.lamports, Wallet(collector)) - Balance(s.lamports, Wallet(collector));
                 && 0 <= bond * s.config.slashBps - gain * 10_000 < 10_000
                 && Balance(s'.lamports, Wallet(prevSolver)) == Balance(s.lamports, Wallet(prevSolver)) + bond - gain)
  {
  }

  lemma SettleOkIff(
    s: State, now: I64, relayer: Pubkey, k: Key, mint: Pubkey, tokenOwner: Pubkey, wallet: Pubkey)
    requires WellFormed(s) && k in s.requests && s.requests[k].bond <= Vault(s, k.id)
    ensures var q := s.requests[k];
            Settle(s, now, relayer, k, mint, tokenOwner, wallet).Ok?
            <==> && relayer == s.config.owner && EscrowOpen(s, mint)
                 && q.claimed && now <= q.deadline
                 && tokenOwner == wallet == q.solver
                 && Gross(q) <= Escrow(s, mint)
  {
  }

  /** In every reachable state only the claim itself and the escrow decide whether a settlement succeeds. */
  lemma SettleSucceedsIff(
    r: Run, n: nat, now: I64, relayer: Pubkey, k: Key, mint: Pubkey, tokenOwner: Pubkey, wallet: Pubkey)
    requires r.FromOpening() && n <= |r.events| && k in r.At(n).requests
    ensures var s := r.At(n);
            var q := s.requests[k];
            Settle(s, now, relayer, k, mint, tokenOwner, wallet).Ok?
            <==> && relayer == s.config.owner && EscrowOpen(s, mint)
                 && q.claimed && now <= q.deadline
                 && tokenOwner == wallet == q.solver
                 && Gross(q) <= Escrow(s, mint)
  {
    hide Settle;
    Reachable(r, n);
    VaultCoversBonds(r, n, k);
    SettleOkIff(r.At(n), now, relayer, k, mint, tokenOwner, wallet);
  }

  // ------------------------------------------------------------- conservation

  lemma {:induction false} Conservation(r: Run, n: nat, mint: Pubkey)
    requires n <= |r.events|
    ensures TotalLamports(r.At(n)) == TotalLamports(r.start)
    ensures mint != NATIVE_MINT ==> Supply(r.At(n), mint) == Supply(r.start, mint)
  {
    if 0 < n {
      Conservation(r, n - 1, mint);
      StepConserves(r.At(n - 1), r.events[n - 1], mint);
    }
  }

  /** So balances that fit into 64 bits in total at the start never overflow an account. */
  lemma BalancesStayBounded(r: Run, n: nat, h: Holder, a: TokenAccount)
    requires n <= |r.events|
    ensures Balance(r.At(n).lamports, h) <= TotalLamports(r.start)
    ensures Balance(r.At(n).tokens, a)
         <= if a.mint == NATIVE_MINT then TotalLamports(r.start) else Supply(r.start, a.mint)
  {
    var s := r.At(n);
    Conservation(r, n, a.mint);
    SumBoundsEntry(s.lamports, h);
    SumBoundsEntry(TokensOf(s.tokens, a.mint), a);
    SumBoundsEntry(TokensOf(s.tokens, NATIVE_MINT), a);
  }

  // ---------------------------------------------------------------- authority

  function Signer(op: Op): Option<Pubkey> {
    match op
    case OpDepositSpl(payer, _, _, _, _) => Some(payer)
    case OpDepositSol(payer, _, _) => Some(payer)
    case OpClaim(solver, _) => Some(solver)
    case OpRelease(_, _, _) => None
    case OpSettle(relayer, _, _, _, _) => Some(relayer)
    case OpDeliver(relayer, _, _, _) => Some(relayer)
    case OpDeliverSol(relayer, _, _) => Some(relayer)
    case OpSetConfig(authority, _) => Some(authority)
    case OpOpenNative => None
  }

  /** A wallet loses lamports or tokens only by a deposit or claim it signed, and only the stated amount. */
  lemma OnlySignersPay(s: State, e: Event, w: Pubkey, mint: Pubkey)
    ensures var s' := Exec(s, e);
            var lost := Balance(s.lamports, Wallet(w)) - Balance(s'.lamports, Wallet(w));
            0 < lost ==> && Signer(e.op) == Some(w)
                         && (e.op.OpClaim? || e.op.OpDepositSol?)
                         && lost == if e.op.OpClaim? then s.config.minBond else e.op.amount
    ensures var s' := Exec(s, e);
            var account := TokenAccount(User(w), mint);
            var lost := Balance(s.tokens, account) - Balance(s'.tokens, account);
            0 < lost ==> e.op.OpDepositSpl? && e.op.payer == w && e.op.mint == mint && lost == e.op.amount
  {
    hide Exec, Move, Debit, Credit, Balance, Slash;
    LamportsStep(s, e, Wallet(w));
    TokensStep(s, e, TokenAccount(User(w), mint));
  }

  /** Whoever signs nothing never ends up with less, in any run. */
  lemma {:induction false} BystandersNeverLose(r: Run, n: nat, w: Pubkey, mint: Pubkey)
    requires n <= |r.events| && forall e <- r.events :: Signer(e.op) != Some(w)
    ensures Balance(r.start.lamports, Wallet(w)) <= Balance(r.At(n).lamports, Wallet(w))
    ensures Balance(r.start.tokens, TokenAccount(User(w), mint)) <= Balance(r.At(n).tokens, TokenAccount(User(w), mint))
  {
    if 0 < n {
      BystandersNeverLose(r, n - 1, w, mint);
      assert r.events[n - 1] in r.events;
      OnlySignersPay(r.At(n - 1), r.events[n - 1], w, mint);
    }
  }

  lemma OwnerOpensEscrow(s: State, e: Event, mint: Pubkey)
    ensures Exec(s, e).config.owner == s.config.owner
    ensures Escrow(Exec(s, e), mint) < Escrow(s, mint) ==> Signer(e.op) == Some(s.config.owner)
  {
    hide NewRequest, Unclaimed;
    match e.op
    case OpDepositSpl(_, _, _, _, _) =>
    case OpDepositSol(_, _, _) =>
    case OpClaim(_, _) =>
    case OpRelease(_, _, _) =>
    case OpSettle(_, _, _, _, _) =>
    case OpDeliver(_, _, _, _) =>
    case OpDeliverSol(_, _, _) =>
    case OpSetConfig(_, _) =>
    case OpOpenNative =>
  }

  /** Only the owner sets the configuration. */
  lemma OnlyOwnerConfigures(s: State, e: Event)
    ensures e.op.OpSetConfig? ==> (Succeeds(s, e) <==> Signer(e.op) == Some(s.config.owner))
    ensures Exec(s, e).config != s.config ==> e.op.OpSetConfig? && Signer(e.op) == Some(s.config.owner)
  {
  }

  /** The first owner stays owner, and nothing leaves an escrow or reconfigures the bridge without that signature. */
  lemma {:induction false} EscrowGuarded(r: Run, n: nat, mint: Pubkey)
    requires n <= |r.events|
    ensures r.At(n).config.owner == r.start.config.owner
    ensures 0 < n && Escrow(r.At(n), mint) < Escrow(r.At(n - 1), mint)
      ==> Signer(r.events[n - 1].op) == Some(r.start.config.owner)
    ensures 0 < n && r.At(n).config != r.At(n - 1).config
      ==> r.events[n - 1].op.OpSetConfig? && Signer(r.events[n - 1].op) == Some(r.start.config.owner)
  {
    hide Apply;
    if 0 < n {
      EscrowGuarded(r, n - 1, mint);
      OwnerOpensEscrow(r.At(n - 1), r.events[n - 1], mint);
      OnlyOwnerConfigures(r.At(n - 1), r.events[n - 1]);
    }
  }

  /** The update that asks for every value of `c`. */
  function Asking(c: Config): Update {
    Update(Some(c.feeBps), Some(c.minFee), Some(c.maxFee), Some(c.claimWindow), Some(c.minBond), Some(c.slashBps))
  }

  /** `v` where it asks for something, otherwise `u`. */
  function Later(u: Update, v: Update): Update {
    Update(if v.feeBps.Some? then v.feeBps else u.feeBps,
           if v.minFee.Some? then v.minFee else u.minFee,
           if v.maxFee.Some? then v.maxFee else u.maxFee,
           if v.claimWindow.Some? then v.claimWindow else u.claimWindow,
           if v.minBond.Some? then v.minBond else u.minBond,
           if v.slashBps.Some? then v.slashBps else u.slashBps)
  }

  /** Any configuration can be reached, and of two updates the later wins field by field. */
  lemma SetConfigLaws(s: State, c: Config, u: Update, v: Update)
    ensures SetConfig(s, s.config.owner, Asking(c)) == Ok(s.(config := c.(owner := s.config.owner)))
    ensures var once := Event(0, OpSetConfig(s.config.owner, u));
            var twice := Event(0, OpSetConfig(s.config.owner, v));
            Exec(Exec(s, once), twice) == Exec(s, Event(0, OpSetConfig(s.config.owner, Later(u, v))))
  {
  }

  // ----------------------------------------------------------------- solvency

  /** Deposits lock into the program's escrow and settlements pay in the deposited mint. */
  predicate WellRouted(s: State, e: Event) {
    match e.op
    case OpDepositSpl(_, _, _, escrow, amount) => escrow == Program || amount == 0
    case OpSettle(_, key, mint, _, _) =>
      key in s.requests ==> mint == s.requests[key].mint || Gross(s.requests[key]) == 0
    case _ => true
  }

  /** Apart from deliveries, routing is exactly what keeps the surplus of every mint. */
  lemma SurplusKeptIff(s: State, e: Event)
    requires WellFormed(s) && Succeeds(s, e) && !e.op.OpDeliver? && !e.op.OpDeliverSol?
    ensures (forall m :: Surplus(Exec(s, e), m) == Surplus(s, m)) <==> WellRouted(s, e)
  {
    forall m ensures Surplus(Exec(s, e), m) == Surplus(s, m) + SurplusChange(s, e, m) {
      SurplusStep(s, e, m);
    }
    if e.op.OpDepositSpl? || e.op.OpSettle? {
      assert Surplus(Exec(s, e), e.op.mint) == Surplus(s, e.op.mint) + SurplusChange(s, e, e.op.mint);
    }
  }

  lemma RoutedStep(s: State, e: Event, mint: Pubkey)
    requires WellFormed(s) && (Succeeds(s, e) ==> WellRouted(s, e))
    ensures Surplus(Exec(s, e), mint) == Surplus(s, mint) - DeliveredBy(s, e, mint)
  {
    SurplusStep(s, e, mint);
  }

  /** All instructions that succeeded before event `n` were well routed. */
  ghost predicate WellRoutedRun(r: Run, n: nat)
    requires n <= |r.events|
  {
    forall i :: 0 <= i < n && r.Did(i) ==> WellRouted(r.At(i), r.events[i])
  }

  lemma {:induction false} Solvency(r: Run, n: nat, mint: Pubkey)
    requires r.FromOpening() && n <= |r.events| && WellRoutedRun(r, n)
    ensures Surplus(r.At(n), mint) == Escrow(r.start, mint) - r.Delivered(n, mint)
  {
    hide Apply;
    if n == 0 {
      assert DebtsOf(r.start, mint) == map[];
    } else {
      Solvency(r, n - 1, mint);
      Reachable(r, n - 1);
      RoutedStep(r.At(n - 1), r.events[n - 1], mint);
    }
  }

  /** While deliveries stay within the opening balance, every open request can be paid in full. */
  lemma PayoutsCovered(r: Run, n: nat, k: Key)
    requires r.FromOpening() && n <= |r.events| && WellRoutedRun(r, n)
    requires k in r.At(n).requests && !r.At(n).requests[k].finalized
    requires r.Delivered(n, r.At(n).requests[k].mint) <= Escrow(r.start, r.At(n).requests[k].mint)
    ensures Gross(r.At(n).requests[k]) <= Escrow(r.At(n), r.At(n).requests[k].mint)
  {
    Solvency(r, n, r.At(n).requests[k].mint);
    SurplusCovers(r.At(n), k);
  }

  /** Up to event `n` every surplus is what the escrow held at first less what was delivered. */
  ghost predicate BooksBalance(r: Run, n: nat)
    requires n <= |r.events|
  {
    forall i, m :: 0 <= i <= n ==> Surplus(r.At(i), m) == Escrow(r.start, m) - r.Delivered(i, m)
  }

  /** Over whole runs, too, routing is exactly the condition. */
  lemma BooksBalanceIff(r: Run, n: nat)
    requires r.FromOpening() && n <= |r.events|
    ensures BooksBalance(r, n) <==> WellRoutedRun(r, n)
  {
    hide Apply, Surplus, Escrow, WellRouted;
    if WellRoutedRun(r, n) {
      forall i, m | 0 <= i <= n ensures Surplus(r.At(i), m) == Escrow(r.start, m) - r.Delivered(i, m) {
        Solvency(r, i, m);
      }
    }
    if BooksBalance(r, n) {
      forall i | 0 <= i < n && r.Did(i) ensures WellRouted(r.At(i), r.events[i]) {
        BalancedStep(r, n, i);
      }
    }
  }

  lemma BalancedStep(r: Run, n: nat, i: nat)
    requires r.FromOpening() && i < n <= |r.events| && r.Did(i) && BooksBalance(r, n)
    ensures WellRouted(r.At(i), r.events[i])
  {
    hide Apply, Surplus, Escrow;
    var s, e := r.At(i), r.events[i];
    if !e.op.OpDeliver? && !e.op.OpDeliverSol? {
      Reachable(r, i);
      forall m ensures Surplus(Exec(s, e), m) == Surplus(s, m) {
        assert r.At(i + 1) == Exec(s, e);
        assert r.Delivered(i + 1, m) == r.Delivered(i, m) + DeliveredBy(s, e, m);
        assert DeliveredBy(s, e, m) == 0;
      }
      SurplusKeptIff(s, e);
    }
  }

  /** Where they fail: a deposit into another escrow is accepted in any state, and leaves its request unfunded. */
  lemma UnfundedDeposit(r: Run, now: I64, payer: Pubkey, id: U64, mint: Pubkey, escrow: TokenOwner, amount: U64)
    requires r.FromOpening() && Key(payer, id) !in r.At(|r.events|).requests && escrow != Program
    requires 0 < amount <= Balance(r.At(|r.events|).tokens, TokenAccount(User(payer), mint))
    ensures var n := |r.events|;
            var r' := Run(r.start, r.events + [Event(now, OpDepositSpl(payer, id, mint, escrow, amount))]);
            && r'.At(n) == r.At(n) && r'.Did(n)
            && Escrow(r'.At(n + 1), mint) == Escrow(r.At(n), mint)
            && Surplus(r'.At(n + 1), mint) == Surplus(r.At(n), mint) - amount
            && !BooksBalance(r', n + 1)
  {
    hide BooksBalance, Apply, Surplus, Escrow;
    var n := |r.events|;
    var e := Event(now, OpDepositSpl(payer, id, mint, escrow, amount));
    var r' := Run(r.start, r.events + [e]);
    SamePrefix(r, r', n);
    Reachable(r', n);
    UnfundedStep(r'.At(n), e);
    BooksBalanceIff(r', n + 1);
    assert !WellRouted(r'.At(n), r'.events[n]);
  }

  lemma UnfundedStep(s: State, e: Event)
    requires WellFormed(s) && e.op.OpDepositSpl? && e.op.escrow != Program
    requires Key(e.op.payer, e.op.id) !in s.requests
    requires e.op.amount <= Balance(s.tokens, TokenAccount(User(e.op.payer), e.op.mint))
    ensures Succeeds(s, e)
    ensures Escrow(Exec(s, e), e.op.mint) == Escrow(s, e.op.mint)
    ensures Surplus(Exec(s, e), e.op.mint) == Surplus(s, e.op.mint) - e.op.amount
  {
    hide Surplus;
    SurplusStep(s, e, e.op.mint);
  }

  // ----------------------------------------------------- the escrow of wrapped SOL

  /** The wrapped-SOL escrow is closed only by a delivery out of an escrow that was already empty. */
  lemma ClosedIff(s: State, e: Event)
    ensures !Exec(s, e).nativeOpen
      <==> || (s.nativeOpen && Succeeds(s, e) && e.op.OpDeliverSol? && Escrow(s, NATIVE_MINT) == 0)
           || (!s.nativeOpen && !e.op.OpOpenNative?)
  {
    match e.op
    case OpDepositSpl(_, _, _, _, _) =>
    case OpDepositSol(_, _, _) =>
    case OpClaim(_, _) =>
    case OpRelease(_, _, _) =>
    case OpSettle(_, _, _, _, _) =>
    case OpDeliver(_, _, _, _) =>
    case OpDeliverSol(_, _, _) =>
    case OpSetConfig(_, _) =>
    case OpOpenNative =>
  }

  /** So "closed if nothing is left" holds exactly unless the delivery takes out all of a non-empty escrow. */
  lemma EmptyClosesIff(s: State, relayer: Pubkey, recipient: TokenOwner, amount: U64)
    requires DeliverSol(s, relayer, recipient, amount).Ok?
    ensures var s' := DeliverSol(s, relayer, recipient, amount).value;
            (!s'.nativeOpen <==> Escrow(s', NATIVE_MINT) == 0)
            <==> !(0 < amount == Escrow(s, NATIVE_MINT) && recipient != Program)
  {
  }

  /** For instance, delivering everything to a wallet succeeds and leaves an empty escrow open. */
  lemma EmptiedStaysOpen(s: State, wallet: Pubkey, amount: U64)
    requires s.nativeOpen && 0 < amount == Escrow(s, NATIVE_MINT)
    ensures DeliverSol(s, s.config.owner, User(wallet), amount).Ok?
    ensures var s' := DeliverSol(s, s.config.owner, User(wallet), amount).value;
            s'.nativeOpen && Escrow(s', NATIVE_MINT) == 0
  {
  }

  lemma ClosedEmptyStep(s: State, e: Event)
    requires s.nativeOpen || Escrow(s, NATIVE_MINT) == 0
    ensures Exec(s, e).nativeOpen || Escrow(Exec(s, e), NATIVE_MINT) == 0
  {
    if s.nativeOpen {
      hide Apply, Escrow;
      ClosedIff(s, e);
      if e.op.OpDeliverSol? && Escrow(s, NATIVE_MINT) == 0 {
        EmptyStaysEmpty(s, e);
      }
    }
  }

  lemma EmptyStaysEmpty(s: State, e: Event)
    requires e.op.OpDeliverSol? && Escrow(s, NATIVE_MINT) == 0
    ensures Escrow(Exec(s, e), NATIVE_MINT) == 0
  {
  }

  /** Over any run a closed escrow holds nothing: no deposit is ever lost in it. */
  lemma {:induction false} ClosedIsEmpty(r: Run, n: nat)
    requires n <= |r.events| && (r.start.nativeOpen || Escrow(r.start, NATIVE_MINT) == 0)
    ensures r.At(n).nativeOpen || Escrow(r.At(n), NATIVE_MINT) == 0
  {
    hide Apply, Escrow;
    if 0 < n {
      ClosedIsEmpty(r, n - 1);
      ClosedEmptyStep(r.At(n - 1), r.events[n - 1]);
    }
  }

  // ------------------------------------------------------- deposits and claims

  /** Every request comes from exactly one deposit, whose gross amount it still records. */
  lemma {:induction false} DepositOf(r: Run, n: nat, k: Key) returns (d: nat)
    requires r.FromOpening() && n <= |r.events| && k in r.At(n).requests
    ensures d < n && r.Deposits(d, k)
    ensures forall j :: 0 <= j < n && r.Deposits(j, k) ==> j == d
    ensures var op := r.events[d].op;
            var q := r.At(n).requests[k];
            && q.amountLocked + q.feeLocked == op.amount
            && IsFeeUnder(r.At(d).config, q.feeLocked, op.amount)
            && q.mint == (if op.OpDepositSpl? then op.mint else NATIVE_MINT)
            && q.payer == k.owner && q.createdAt == r.events[d].now
  {
    hide Apply;
    Reachable(r, n - 1);
    Reachable(r, n);
    Lifecycle(r.At(n - 1), r.events[n - 1], k);
    if r.Deposits(n - 1, k) {
      d := n - 1;
      forall j | 0 <= j < n && r.Deposits(j, k) ensures j == d {
        if j < d {
          Reachable(r, j);
          Lifecycle(r.At(j), r.events[j], k);
          RequestPersists(r, j + 1, n - 1, k);
        }
      }
    } else {
      RequestPersists(r, n - 1, n, k);
      d := DepositOf(r, n - 1, k);
    }
  }

  /** A claimed request was claimed before, or this instruction is its claim. */
  lemma OnlyClaimsClaim(s: State, e: Event, k: Key)
    requires WellFormed(s) && k in Exec(s, e).requests && Exec(s, e).requests[k].claimed
    ensures k in s.requests
    ensures if Succeeds(s, e) && e.op.OpClaim? && e.op.key == k
            then var q := Exec(s, e).requests[k];
                 && q.solver == e.op.solver && q.bond == s.config.minBond
                 && q.deadline == e.now + s.config.claimWindow
            else !(Succeeds(s, e) && Touches(e.op, k)) && Exec(s, e).requests[k] == s.requests[k]
  {
    hide Apply, WellFormed;
    StillClaimed(s, e, k);
    RequestFrame(s, e, k);
    if Succeeds(s, e) && e.op.OpClaim? && e.op.key == k {
      ClaimSets(s, e, k);
    }
  }

  lemma StillClaimed(s: State, e: Event, k: Key)
    requires k in Exec(s, e).requests && Exec(s, e).requests[k].claimed
    ensures k in s.requests
    ensures Succeeds(s, e) && Touches(e.op, k) ==> e.op.OpClaim?
  {
    hide Move, Debit, Credit, Balance, Slash;
  }

  lemma ClaimSets(s: State, e: Event, k: Key)
    requires Succeeds(s, e) && e.op.OpClaim? && e.op.key == k
    ensures k in Exec(s, e).requests
    ensures var q := Exec(s, e).requests[k];
            && q.claimed && q.solver == e.op.solver && q.bond == s.config.minBond
            && q.deadline == e.now + s.config.claimWindow
  {
  }

  /** A standing claim was made by one earlier event and is exactly as that event left it. */
  lemma {:induction false} ClaimBehind(r: Run, n: nat, k: Key) returns (c: nat)
    requires r.FromOpening() && n <= |r.events|
    requires k in r.At(n).requests && r.At(n).requests[k].claimed
    ensures r.Stands(n, k, c)
  {
    hide Apply;
    var s, e := r.At(n - 1), r.events[n - 1];
    Reachable(r, n - 1);
    OnlyClaimsClaim(s, e, k);
    if r.Claims(n - 1, k) {
      c := n - 1;
    } else {
      c := ClaimBehind(r, n - 1, k);
    }
  }

  predicate Live(s: State, now: I64, k: Key)
    requires k in s.requests
  {
    s.requests[k].claimed && now <= s.requests[k].deadline
  }

  lemma ClaimKnowsRequest(s: State, e: Event, k: Key)
    requires Succeeds(s, e) && e.op.OpClaim? && e.op.key == k
    ensures k in s.requests && !s.requests[k].finalized && !Live(s, e.now, k)
  {
  }

  /**
   * Where the bond of the claim on `k` goes when the instruction ends it: back to the solver
   * in time, split between collector and solver too late, or nowhere when it is taken over.
   */
  predicate BondGoes(s: State, e: Event, k: Key)
    requires k in s.requests
  {
    var q, s' := s.requests[k], Exec(s, e);
    var toVault := Vault(s', k.id) - Vault(s, k.id);
    var toSolver := Balance(s'.lamports, Wallet(q.solver)) - Balance(s.lamports, Wallet(q.solver));
    match e.op
    case OpSettle(_, _, _, _, _) => e.now <= q.deadline && toVault == 0 - q.bond && toSolver == q.bond
    case OpRelease(_, _, collector) =>
      var slash := Slash(q.bond, s.config.slashBps);
      && q.deadline < e.now && toVault == 0 - q.bond
      && if collector == q.solver then toSolver == q.bond else
           && toSolver == q.bond - slash
           && Balance(s'.lamports, Wallet(collector)) == Balance(s.lamports, Wallet(collector)) + slash
    case OpClaim(next, _) =>
      && q.deadline < e.now && toVault == s.config.minBond && FlowOf(s, e, k.id).left == q.bond
      && toSolver == if next == q.solver then 0 - s.config.minBond else 0
    case _ => false
  }

  lemma ClaimEnded(s: State, e: Event, k: Key)
    requires k in s.requests && s.requests[k].claimed && Succeeds(s, e) && Touches(e.op, k)
    ensures BondGoes(s, e, k)
  {
    hide Exec, Move, Debit, Credit, Balance, Slash;
    LamportsStep(s, e, BondVault(k.id));
    LamportsStep(s, e, Wallet(s.requests[k].solver));
    if e.op.OpRelease? {
      LamportsStep(s, e, Wallet(e.op.collector));
    }
  }

  /** Each claim still stands, or exactly one later event ended it and disposed of its bond. */
  lemma {:induction false} ClaimFate(r: Run, n: nat, k: Key, c: nat) returns (f: nat)
    requires r.FromOpening() && n <= |r.events| && c < n && r.Claims(c, k)
    ensures f <= n && (f == n <==> r.Stands(n, k, c))
    ensures f < n ==> r.Ends(f, k, c) && BondGoes(r.At(f), r.events[f], k)
    ensures forall j :: 0 <= j < n ==> (r.Ends(j, k, c) <==> j == f)
  {
    hide Apply, BondGoes;
    var s, e := r.At(n - 1), r.events[n - 1];
    Reachable(r, n - 1);
    if c == n - 1 {
      ClaimSets(s, e, k);
      f := n;
    } else {
      f := ClaimFate(r, n - 1, k, c);
      if f == n - 1 {
        if r.Did(n - 1) && Touches(e.op, k) {
          ClaimEnded(s, e, k);
        } else {
          RequestFrame(s, e, k);
          f := n;
        }
      }
    }
  }

  /** What a settlement hands to the recorded solver. */
  lemma SettleMoves(s: State, e: Event, k: Key)
    requires Succeeds(s, e) && SettlesOn(e.op, k)
    ensures var q, mint := s.requests[k], e.op.mint;
            && q.claimed && e.now <= q.deadline
            && Escrow(Exec(s, e), mint) == Escrow(s, mint) - Gross(q)
            && Balance(Exec(s, e).tokens, TokenAccount(User(q.solver), mint))
               == Balance(s.tokens, TokenAccount(User(q.solver), mint)) + Gross(q)
            && Balance(Exec(s, e).lamports, Wallet(q.solver)) == Balance(s.lamports, Wallet(q.solver)) + q.bond
  {
  }

  /**
   * A settlement pays the whole deposit, and returns the whole bond, to the solver of the
   * latest claim, inside the window of that claim, with nothing done to the request in between.
   */
  lemma SettlementPaysLatestClaim(r: Run, i: nat, k: Key) returns (d: nat, c: nat)
    requires r.FromOpening() && r.Monotone() && r.Settles(i, k)
    ensures d < c < i && r.Deposits(d, k) && r.Stands(i, k, c)
    ensures r.events[c].now <= r.events[i].now <= r.Deadline(c)
    ensures var s, s' := r.At(i), r.At(i + 1);
            var solver, mint := r.events[c].op.solver, r.events[i].op.mint;
            && Escrow(s', mint) == Escrow(s, mint) - r.events[d].op.amount
            && Balance(s'.tokens, TokenAccount(User(solver), mint))
               == Balance(s.tokens, TokenAccount(User(solver), mint)) + r.events[d].op.amount
            && Balance(s'.lamports, Wallet(solver)) == Balance(s.lamports, Wallet(solver)) + r.At(c).config.minBond
  {
    hide Apply;
    Reachable(r, i);
    Lifecycle(r.At(i), r.events[i], k);
    SettleMoves(r.At(i), r.events[i], k);
    c := ClaimBehind(r, i, k);
    Reachable(r, c);
    ClaimKnowsRequest(r.At(c), r.events[c], k);
    d := DepositOf(r, i, k);
    var d' := DepositOf(r, c, k);
    assert d' == d;
  }

  lemma PaidAtMostOnce(r: Run, i: nat, j: nat, k: Key)
    requires r.FromOpening() && r.Settles(i, k) && r.Settles(j, k)
    ensures i == j
  {
    hide Apply;
    var a, b := Min(i, j), Max(i, j);
    if a < b {
      Reachable(r, a);
      Reachable(r, b);
      Lifecycle(r.At(a), r.events[a], k);
      Lifecycle(r.At(b), r.events[b], k);
      RequestPersists(r, a + 1, b, k);
    }
  }

  /** Over a whole run a request pays out nothing before it is finalised and its deposit afterwards. */
  lemma {:induction false} PaidEqualsLocked(r: Run, n: nat, k: Key)
    requires r.FromOpening() && n <= |r.events|
    ensures k !in r.At(n).requests ==> r.Locked(n, k) == r.Paid(n, k) == 0
    ensures k in r.At(n).requests ==>
              && r.Locked(n, k) == Gross(r.At(n).requests[k])
              && r.Paid(n, k) == if r.At(n).requests[k].finalized then r.Locked(n, k) else 0
  {
    hide Apply;
    if 0 < n {
      PaidEqualsLocked(r, n - 1, k);
      Reachable(r, n - 1);
      Lifecycle(r.At(n - 1), r.events[n - 1], k);
      if k in r.At(n - 1).requests {
        RequestPersists(r, n - 1, n, k);
      }
    }
  }

  // ------------------------------------------------------------ claim windows

  /** From a claim on, its request is finalised, still under that claim, or its deadline has passed. */
  lemma {:induction false} ClaimRunsOut(r: Run, a: nat, n: nat, k: Key)
    requires r.FromOpening() && r.Monotone() && r.Claims(a, k) && a < n <= |r.events|
    ensures k in r.At(n).requests
    ensures var q := r.At(n).requests[k];
            || q.finalized
            || (q.claimed && q.deadline == r.Deadline(a))
            || r.Deadline(a) < r.events[n - 1].now
    decreases n
  {
    if a < n - 1 {
      ClaimRunsOut(r, a, n - 1, k);
      Reachable(r, n - 1);
      RequestFrame(r.At(n - 1), r.events[n - 1], k);
      assert r.events[n - 2].now <= r.events[n - 1].now;
    }
  }

  /** No two claims on a request are ever open at the same time, however the window is reconfigured. */
  lemma WindowsDisjoint(r: Run, a: nat, b: nat, k: Key)
    requires r.FromOpening() && r.Monotone()
    requires r.Claims(a, k) && r.Claims(b, k) && a < b
    ensures r.Deadline(a) < r.events[b].now
    ensures forall t :: !(r.Open(a, t) && r.Open(b, t))
  {
    ClaimRunsOut(r, a, b, k);
    assert r.events[b - 1].now <= r.events[b].now;
  }
}
