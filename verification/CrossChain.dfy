/** What a solver earns by carrying a request from Solana to the EVM chain. */
module CrossChain {
  import opened Prelude
  import opened BridgeModel
  import opened Accounting
  import opened Runs
  import opened Sums
  import opened Decimals

  /** EVM units the node pays out for a request whose mint is mapped. */
  function DeliveredOnEvm(q: Request, solana: int, evm: int): int {
    NodeConvert(q.amountLocked, solana, evm)
  }

  /**
   * Settling pays the solver what it delivered, valued back on Solana, plus the fee fixed
   * at the deposit, plus a dust smaller than one EVM unit.
   */
  lemma SolverMargin(r: Run, i: nat, k: Key, solana: int, evm: int) returns (d: nat, c: nat, dust: nat)
    requires r.FromOpening() && r.Monotone() && r.Settles(i, k)
    ensures d < c < i && r.Deposits(d, k) && r.Stands(i, k, c)
    ensures var q := r.At(i).requests[k];
            var solver, mint := r.events[c].op.solver, r.events[i].op.mint;
            var account := TokenAccount(User(solver), mint);
            var gain := Balance(r.At(i + 1).tokens, account) - Balance(r.At(i).tokens, account);
            && gain - NodeConvert(DeliveredOnEvm(q, solana, evm), evm, solana) == q.feeLocked + dust
            && IsFeeUnder(r.At(d).config, q.feeLocked, r.events[d].op.amount)
    ensures dust < Pow10(Max(0, solana - evm))
  {
    hide IsFeeUnder, Apply, NodeConvert, Rescale;
    d, c := SettlementPaysLatestClaim(r, i, k);
    var d' := DepositOf(r, i, k);
    var net := r.At(i).requests[k].amountLocked;
    ConversionsAgree(net, solana, evm);
    ConversionsAgree(Rescale(net, solana, evm), evm, solana);
    RoundTrip(net, solana, evm);
    dust := net - Rescale(Rescale(net, solana, evm), evm, solana);
  }
}
