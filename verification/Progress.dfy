/** What can still be finalised: plans for the relayer and a solver, and when there is none. */
module Progress {
  import opened Prelude
  import opened Sums
  import opened BridgeModel
  import opened Accounting
  import opened Runs

  /** The configuration allows a claim at `now` that can still be settled then. */
  predicate Usable(c: Config, now: I64) {
    0 < c.minBond && 0 <= c.claimWindow && FitsI64(now + c.claimWindow)
  }

  predicate Funded(s: State, solver: Pubkey) {
    s.config.minBond <= Balance(s.lamports, Wallet(solver))
  }

  /** The ledger after a plan. */
  function After(s: State, plan: seq<Event>): State {
    Run(s, plan).At(|plan|)
  }

  /** All of the plan succeeds at time `now`, signed by `solver` and the relayer, without `set_config`. */
  predicate Works(s: State, now: I64, solver: Pubkey, plan: seq<Event>) {
    && (forall e <- plan :: e.now == now && !e.op.OpSetConfig?
                            && Signer(e.op) in {None, Some(solver), Some(s.config.owner)})
    && (forall i :: 0 <= i < |plan| ==> Run(s, plan).Did(i))
  }

  predicate Finishes(s: State, now: I64, k: Key, solver: Pubkey, plan: seq<Event>) {
    && Works(s, now, solver, plan)
    && k in After(s, plan).requests && After(s, plan).requests[k].finalized
  }

  /** The plan's only lasting effects: `k` is finalised, its payout made, and `solver` no poorer. */
  ghost predicate FinishesOnly(s: State, now: I64, k: Key, solver: Pubkey, plan: seq<Event>) {
    var s' := After(s, plan);
    && Finishes(s, now, k, solver, plan) && Sound(s')
    && s'.config == s.config && s'.nativeOpen == s.nativeOpen
    && OpenKeys(s') == OpenKeys(s) - {k} && s'.requests.Keys == s.requests.Keys
    && (forall j <- s.requests :: j != k ==> s'.requests[j] == s.requests[j])
    && Balance(s.lamports, Wallet(solver)) <= Balance(s'.lamports, Wallet(solver))
    && forall m :: Surplus(s', m) == Surplus(s, m)
  }

  predicate AllLive(s: State, now: I64) {
    forall k <- s.requests :: !s.requests[k].finalized ==> Live(s, now, k)
  }

  function OpenKeys(s: State): set<Key> {
    set k | k in s.requests && !s.requests[k].finalized
  }

  /** Holds in every reachable state. */
  ghost predicate Sound(s: State) {
    WellFormed(s) && forall id: U64 :: Held(s, id) <= Vault(s, id)
  }

  lemma ReachableSound(r: Run, n: nat)
    requires r.FromOpening() && n <= |r.events|
    ensures Sound(r.At(n))
  {
    Reachable(r, n);
    forall id: U64 ensures Held(r.At(n), id) <= Vault(r.At(n), id) {
      BondLedger(r, n, id);
    }
  }

  lemma SoundStep(s: State, e: Event)
    requires Sound(s)
    ensures Sound(Exec(s, e))
  {
    hide WellFormed, Held, Vault, Exec;
    StepKeepsWellFormed(s, e);
    forall id: U64 ensures Held(Exec(s, e), id) <= Vault(Exec(s, e), id) {
      BondStep(s, e, id);
    }
  }

  lemma SoundCovers(s: State, k: Key)
    requires Sound(s) && k in s.requests
    ensures s.requests[k].bond <= Vault(s, k.id)
  {
    HeldCoversBond(s, k);
  }

  /** A successful claim or well-routed settlement touches its own request and nothing else that matters. */
  lemma TouchOnly(s: State, e: Event, k: Key)
    requires Sound(s) && k in s.requests && Succeeds(s, e) && WellRouted(s, e)
    requires Touches(e.op, k) && !e.op.OpRelease?
    ensures var s' := Exec(s, e);
            && Sound(s') && s'.config == s.config && s'.nativeOpen == s.nativeOpen
            && s'.requests.Keys == s.requests.Keys
            && (forall m :: Surplus(s', m) == Surplus(s, m))
            && forall j <- s.requests :: j != k ==> s'.requests[j] == s.requests[j]
  {
    hide Sound, Surplus, Move, Debit, Credit, Balance, Slash;
    SoundIsWellFormed(s);
    SoundStep(s, e);
    forall m ensures Surplus(Exec(s, e), m) == Surplus(s, m) {
      RoutedStep(s, e, m);
    }
  }

  lemma SoundIsWellFormed(s: State)
    requires Sound(s)
    ensures WellFormed(s)
  {
  }

  /** One settlement under a live claim. */
  lemma FinishLive(s: State, now: I64, k: Key, solver: Pubkey) returns (e: Event)
    requires Sound(s) && k in s.requests && !s.requests[k].finalized
    requires EscrowOpen(s, s.requests[k].mint) && Gross(s.requests[k]) <= Escrow(s, s.requests[k].mint)
    requires Live(s, now, k)
    ensures e.now == now && e.op.OpSettle? && Signer(e.op) == Some(s.config.owner)
    ensures Touches(e.op, k) && Succeeds(s, e) && WellRouted(s, e)
    ensures k in Exec(s, e).requests && Exec(s, e).requests[k].finalized
    ensures Balance(Exec(s, e).lamports, Wallet(solver))
         >= Balance(s.lamports, Wallet(solver)) + if solver == s.requests[k].solver then s.requests[k].bond else 0
  {
    hide Settle, Balance;
    var q, owner := s.requests[k], s.config.owner;
    e := Event(now, OpSettle(owner, k, q.mint, q.solver, q.solver));
    SoundCovers(s, k);
    SettleOkIff(s, now, owner, k, q.mint, q.solver, q.solver);
    SettleFinalises(s, now, owner, k, q.mint, q.solver, q.solver);
    LamportsStep(s, e, Wallet(solver));
  }

  lemma FinishOpen(s: State, now: I64, k: Key, solver: Pubkey) returns (plan: seq<Event>)
    requires Sound(s) && k in s.requests && !s.requests[k].finalized
    requires EscrowOpen(s, s.requests[k].mint) && Gross(s.requests[k]) <= Escrow(s, s.requests[k].mint)
    requires Live(s, now, k) || (Usable(s.config, now) && Funded(s, solver))
    ensures |plan| <= 2 && FinishesOnly(s, now, k, solver, plan)
  {
    hide Apply, Exec, Succeeds, Sound, Surplus, Balance, Claim;
    if Live(s, now, k) {
      var e := FinishLive(s, now, k, solver);
      TouchOnly(s, e, k);
      plan := [e];
      TwoSteps(s, plan);
    } else {
      var claim := ClaimOpens(s, now, solver, k);
      var s' := Exec(s, claim);
      TouchOnly(s, claim, k);
      var settle := FinishLive(s', now, k, solver);
      TouchOnly(s', settle, k);
      plan := [claim, settle];
      TwoSteps(s, plan);
    }
  }

  /**
   * An open request that its escrow can pay is finalised at once: by one settlement under a
   * live claim, and otherwise by a claim of any funded solver and its settlement. If the
   * escrow of wrapped SOL was closed, creating it again comes first.
   */
  lemma NeverStuck(r: Run, now: I64, k: Key, solver: Pubkey) returns (plan: seq<Event>)
    requires r.FromOpening()
    requires var s := r.At(|r.events|);
             && k in s.requests && !s.requests[k].finalized
             && Gross(s.requests[k]) <= Escrow(s, s.requests[k].mint)
             && (Live(s, now, k) || (Usable(s.config, now) && Funded(s, solver)))
    ensures var s := r.At(|r.events|);
            |plan| <= (if EscrowOpen(s, s.requests[k].mint) then 2 else 3) && Finishes(s, now, k, solver, plan)
  {
    var n := |r.events|;
    var s := r.At(n);
    ReachableSound(r, n);
    if EscrowOpen(s, s.requests[k].mint) {
      plan := FinishOpen(s, now, k, solver);
    } else {
      var first := Reopen(s, now, solver);
      plan := FinishOpen(After(s, first), now, k, solver);
      ThenWorks(s, now, solver, first, plan);
      plan := first + plan;
    }
  }

  /** Creating the closed escrow of wrapped SOL again changes nothing else. */
  lemma Reopen(s: State, now: I64, solver: Pubkey) returns (plan: seq<Event>)
    requires Sound(s)
    ensures |plan| == (if s.nativeOpen then 0 else 1) && Works(s, now, solver, plan)
    ensures After(s, plan) == s.(nativeOpen := true) && Sound(After(s, plan))
    ensures forall m :: Surplus(After(s, plan), m) == Surplus(s, m)
  {
    plan := if s.nativeOpen then [] else [Event(now, OpOpenNative)];
    TwoSteps(s, plan);
    if plan != [] {
      SoundStep(s, plan[0]);
      forall m ensures Surplus(Exec(s, plan[0]), m) == Surplus(s, m) {
        RoutedStep(s, plan[0], m);
      }
    }
  }

  /** Plans that work one after the other work together. */
  lemma ThenWorks(s: State, now: I64, solver: Pubkey, a: seq<Event>, b: seq<Event>)
    requires Works(s, now, solver, a) && Works(After(s, a), now, solver, b)
    ensures Works(s, now, solver, a + b) && After(s, a + b) == After(After(s, a), b)
  {
    hide Apply;
    var r, r' := Run(s, a + b), Run(After(s, a), b);
    EscrowGuarded(Run(s, a), |a|, NATIVE_MINT);
    Continued(s, a, b, |b|);
    forall i | 0 <= i < |r.events| ensures r.Did(i) {
      if i < |a| {
        SamePrefix(Run(s, a), r, i);
        assert Run(s, a).Did(i);
      } else {
        Continued(s, a, b, i - |a|);
        assert r'.Did(i - |a|);
      }
    }
  }

  lemma {:induction false} Continued(s: State, a: seq<Event>, b: seq<Event>, n: nat)
    requires n <= |b|
    ensures Run(s, a + b).At(|a| + n) == Run(After(s, a), b).At(n)
  {
    hide Apply;
    if n == 0 {
      SamePrefix(Run(s, a), Run(s, a + b), |a|);
    } else {
      Continued(s, a, b, n - 1);
    }
  }

  /** The plan finalises every request, and the escrows keep exactly their surplus. */
  ghost predicate FinishesAll(s: State, now: I64, solver: Pubkey, plan: seq<Event>) {
    var s' := After(s, plan);
    && Works(s, now, solver, plan)
    && s'.requests.Keys == s.requests.Keys && OpenKeys(s') == {}
    && forall m :: Escrow(s', m) == Surplus(s, m)
  }

  lemma NothingOwed(s: State, m: Pubkey)
    requires OpenKeys(s) == {}
    ensures Surplus(s, m) == Escrow(s, m)
  {
    assert forall k <- s.requests :: k !in OpenKeys(s) ==> s.requests[k].finalized;
    assert DebtsOf(s, m) == map[];
  }

  lemma {:induction false} FinishEach(s: State, now: I64, solver: Pubkey) returns (plan: seq<Event>)
    requires Sound(s) && s.nativeOpen && (forall m :: 0 <= Surplus(s, m))
    requires AllLive(s, now) || (Usable(s.config, now) && Funded(s, solver))
    ensures |plan| <= 2 * |OpenKeys(s)| && FinishesAll(s, now, solver, plan)
    decreases |OpenKeys(s)|
  {
    hide Apply, Sound, Surplus, Balance, Escrow, Works, OpenKeys;
    if OpenKeys(s) == {} {
      plan := [];
      NoPlan(s, now, solver);
      forall m ensures Escrow(s, m) == Surplus(s, m) {
        NothingOwed(s, m);
      }
    } else {
      var k :| k in OpenKeys(s);
      IsOpen(s, k);
      SurplusCovers(s, k);
      var first := FinishOpen(s, now, k, solver);
      plan := FinishEach(After(s, first), now, solver);
      ThenWorks(s, now, solver, first, plan);
      plan := first + plan;
    }
  }

  lemma NoPlan(s: State, now: I64, solver: Pubkey)
    ensures Works(s, now, solver, []) && After(s, []) == s
  {
  }

  lemma IsOpen(s: State, k: Key)
    ensures k in OpenKeys(s) <==> k in s.requests && !s.requests[k].finalized
  {
  }

  /**
   * From any reachable state whose escrows cover what is owed, one funded solver and the relayer
   * finalise all open requests: at most two steps for each, and one bond is enough for all. Where
   * every open request has a live claim, the relayer alone does.
   */
  lemma NobodyStuck(r: Run, now: I64, solver: Pubkey) returns (plan: seq<Event>)
    requires r.FromOpening()
    requires var s := r.At(|r.events|);
             && (forall m :: 0 <= Surplus(s, m))
             && (AllLive(s, now) || (Usable(s.config, now) && Funded(s, solver)))
    ensures var s := r.At(|r.events|);
            |plan| <= 2 * |OpenKeys(s)| + (if s.nativeOpen then 0 else 1) && FinishesAll(s, now, solver, plan)
  {
    hide Apply, Sound, Surplus, Works;
    var s := r.At(|r.events|);
    ReachableSound(r, |r.events|);
    var first := Reopen(s, now, solver);
    plan := FinishEach(After(s, first), now, solver);
    ThenWorks(s, now, solver, first, plan);
    plan := first + plan;
  }

  lemma TwoSteps(s: State, plan: seq<Event>)
    requires |plan| <= 2
    ensures Run(s, plan).At(0) == s
    ensures 0 < |plan| ==> Run(s, plan).At(1) == Exec(s, plan[0])
    ensures 1 < |plan| ==> Run(s, plan).At(2) == Exec(Exec(s, plan[0]), plan[1])
  {
  }

  /** Without a live claim, a funded solver can claim and then holds a live, bonded claim. */
  lemma ClaimOpens(s: State, now: I64, solver: Pubkey, k: Key) returns (e: Event)
    requires k in s.requests && !s.requests[k].finalized && !Live(s, now, k)
    requires Usable(s.config, now) && Funded(s, solver)
    ensures e == Event(now, OpClaim(solver, k)) && Succeeds(s, e)
    ensures var s' := Exec(s, e);
            && s'.tokens == s.tokens && k in s'.requests && Live(s', now, k)
            && s'.requests[k].solver == solver && Terms(s'.requests[k]) == Terms(s.requests[k])
            && !s'.requests[k].finalized
            && Balance(s'.lamports, Wallet(solver)) == Balance(s.lamports, Wallet(solver)) - s'.requests[k].bond
  {
    e := Event(now, OpClaim(solver, k));
  }

  lemma SettleFinalises(
    s: State, now: I64, relayer: Pubkey, k: Key, mint: Pubkey, tokenOwner: Pubkey, wallet: Pubkey)
    requires Settle(s, now, relayer, k, mint, tokenOwner, wallet).Ok?
    ensures var s' := Settle(s, now, relayer, k, mint, tokenOwner, wallet).value;
            k in s'.requests && s'.requests[k].finalized
  {
  }

  /** An open request without a live claim at `now`, under a configuration that allows no useful claim. */
  predicate Hopeless(s: State, now: I64, k: Key) {
    k in s.requests && !s.requests[k].finalized && !Live(s, now, k) && !Usable(s.config, now)
  }

  lemma HopelessStep(s: State, e: Event, k: Key)
    requires WellFormed(s) && Hopeless(s, e.now, k) && !e.op.OpSetConfig?
    ensures Exec(s, e).config == s.config && Hopeless(Exec(s, e), e.now, k)
  {
    hide Apply, WellFormed;
    SameConfig(s, e);
    RequestFrame(s, e, k);
    if Succeeds(s, e) && Touches(e.op, k) {
      HopelessTouch(s, e, k);
    }
  }

  lemma SameConfig(s: State, e: Event)
    requires !e.op.OpSetConfig?
    ensures Exec(s, e).config == s.config
  {
  }

  lemma HopelessTouch(s: State, e: Event, k: Key)
    requires Hopeless(s, e.now, k) && Succeeds(s, e) && Touches(e.op, k)
    ensures Hopeless(Exec(s, e), e.now, k)
  {
    hide Move, Debit, Credit, Balance, Slash;
  }

  lemma StillUnusable(c: Config, now: I64, later: I64)
    requires !Usable(c, now) && now <= later
    ensures !Usable(c, later)
  {
  }

  /** Conversely, without a live claim or a usable configuration nothing but `set_config` helps. */
  lemma {:induction false} StuckWithoutWindow(r: Run, n: nat, now: I64, k: Key)
    requires r.Monotone() && WellFormed(r.start) && Hopeless(r.start, now, k)
    requires forall e <- r.events :: now <= e.now && !e.op.OpSetConfig?
    requires n <= |r.events|
    ensures WellFormed(r.At(n)) && r.At(n).config == r.start.config
    ensures Hopeless(r.At(n), if n == 0 then now else r.events[n - 1].now, k)
  {
    hide Apply;
    if 0 < n {
      var s, e := r.At(n - 1), r.events[n - 1];
      var before := if n == 1 then now else r.events[n - 2].now;
      StuckWithoutWindow(r, n - 1, now, k);
      assert n == 1 || r.events[n - 2].now <= e.now;
      assert e in r.events;
      StillUnusable(s.config, before, e.now);
      StepKeepsWellFormed(s, e);
      HopelessStep(s, e, k);
    }
  }

  /** Some later history without `set_config` finalises `k`. */
  ghost predicate Finalisable(s: State, now: I64, k: Key) {
    exists plan: seq<Event> :: FinalisedBy(s, now, k, plan)
  }

  ghost predicate FinalisedBy(s: State, now: I64, k: Key, plan: seq<Event>) {
    var r := Run(s, plan);
    && r.Monotone() && (forall e <- plan :: now <= e.now && !e.op.OpSetConfig?)
    && k in r.At(|plan|).requests && r.At(|plan|).requests[k].finalized
  }

  /** Some later history without `set_config` finalises every request. */
  ghost predicate AllFinalisable(s: State, now: I64) {
    exists plan: seq<Event> :: AllFinalisedBy(s, now, plan)
  }

  ghost predicate AllFinalisedBy(s: State, now: I64, plan: seq<Event>) {
    forall k <- s.requests :: FinalisedBy(s, now, k, plan)
  }

  /** With covered escrows and a funded solver, exactly when all open requests can still be finalised together. */
  lemma AllFinalisableIff(r: Run, now: I64, solver: Pubkey)
    requires r.FromOpening()
    requires var s := r.At(|r.events|);
             (forall m :: 0 <= Surplus(s, m)) && Funded(s, solver)
    ensures var s := r.At(|r.events|);
            AllFinalisable(s, now) <==> AllLive(s, now) || Usable(s.config, now)
  {
    hide Apply, Surplus, Finishes, FinalisedBy;
    var s := r.At(|r.events|);
    if AllLive(s, now) || Usable(s.config, now) {
      var plan := NobodyStuck(r, now, solver);
      forall k <- s.requests ensures FinalisedBy(s, now, k, plan) {
        FinalisedWithAll(s, now, k, solver, plan);
      }
      assert AllFinalisedBy(s, now, plan);
    } else {
      var k :| k in s.requests && !s.requests[k].finalized && !Live(s, now, k);
      Reachable(r, |r.events|);
      forall plan: seq<Event> ensures !AllFinalisedBy(s, now, plan) {
        NotFinalised(s, now, k, plan);
      }
    }
  }

  lemma FinalisedWithAll(s: State, now: I64, k: Key, solver: Pubkey, plan: seq<Event>)
    requires FinishesAll(s, now, solver, plan) && k in s.requests
    ensures FinalisedBy(s, now, k, plan)
  {
    IsOpen(After(s, plan), k);
  }

  lemma NotFinalised(s: State, now: I64, k: Key, plan: seq<Event>)
    requires WellFormed(s) && Hopeless(s, now, k)
    ensures !FinalisedBy(s, now, k, plan)
  {
    if FinalisedBy(s, now, k, plan) {
      StuckWithoutWindow(Run(s, plan), |plan|, now, k);
    }
  }

  /** With a funded solver and a covered payout, exactly when an open request can still be finalised. */
  lemma FinalisableIff(r: Run, now: I64, k: Key, solver: Pubkey)
    requires r.FromOpening()
    requires var s := r.At(|r.events|);
             && k in s.requests && !s.requests[k].finalized
             && Gross(s.requests[k]) <= Escrow(s, s.requests[k].mint) && Funded(s, solver)
    ensures var s := r.At(|r.events|);
            Finalisable(s, now, k) <==> Live(s, now, k) || Usable(s.config, now)
  {
    hide Apply;
    var s := r.At(|r.events|);
    if Live(s, now, k) || Usable(s.config, now) {
      var plan := NeverStuck(r, now, k, solver);
      assert FinalisedBy(s, now, k, plan);
    } else {
      Reachable(r, |r.events|);
      forall plan: seq<Event> ensures !FinalisedBy(s, now, k, plan) {
        NotFinalised(s, now, k, plan);
      }
    }
  }
}
