/** Concrete rounds that do not conserve value. */
module LedgerExample {
  import opened Options
  import opened Orders
  import opened Elections
  import opened Blocks
  import opened Accounts
  import opened RoundUpdates
  import opened Transfers
  import opened RoundState
  import opened Ledger
  import opened PipelineExample

  // ---- No fees ------------------------------------------------------------

  ghost predicate Feeless(b: ProposalBlock) {
    forall d <- b.txns :: b.txns[d].validators.None? && b.txns[d].proposerFeeShare == 0
  }

  lemma {:induction false} NoProposerFees(txns: map<Digest, Txn>)
    requires forall d <- txns :: txns[d].proposerFeeShare == 0
    ensures ProposerFees(txns) == 0
  {
    if txns != map[] {
      var d :| d in txns && ProposerFees(txns) == txns[d].proposerFeeShare + ProposerFees(txns - {d});
      NoProposerFees(txns - {d});
    }
  }

  /** The only fee update of such a block is one of nothing. */
  lemma FeeOfNothing(b: ProposalBlock, v: StateUpdate)
    requires Feeless(b) && !BlockPanics(b) && v in BlockUpdates(b) && v.updateAccount == Fee
    ensures v.amount == 0
  {
    NoProposerFees(b.txns);
  }

  lemma NoFees(b: ProposalBlock, a: Address)
    requires Feeless(b) && NoPanic([b])
    ensures NoFeesAt([b], a)
  {
    var fees := At(FeesIn(RoundArgs([b])), a);
    forall w | w in fees ensures Part(w, false) == 0 {
      var v :| v in RoundUpdatesOf([b]) && ToArgs(v) == w;
      FeeOfNothing(b, v);
    }
    SumNothing(fees, false);
  }

  // ---- A stale sender -----------------------------------------------------

  /** The round of `PipelineExample`, with a sender whose nonce is already higher: the
      receiver gains one unit and nobody loses it. */
  lemma StaleSenderExample(order: seq<UpdateArgs>)
    requires NoPanic([BLOCK]) && Enumerates(order, RoundArgs([BLOCK]))
    ensures Gained(StaleAndNew(TXN), order, true) == 0 && Gained(StaleAndNew(TXN), order, false) == 1
  {
    ExampleTxns();
    NoFees(BLOCK, TXN.receiver);
    ValueAppears([BLOCK], order, TXN);
  }

  // ---- Debits that wrap around --------------------------------------------

  const FIRST := Txn(7, 0, 1, 0, HALF, 1, None, 0, 0)
  const SECOND := Txn(8, 0, 3, 0, HALF, 2, None, 0, 0)
  const HALVES := ProposalBlock(0, 1, 0, map[7 := FIRST, 8 := SECOND], map[],
                                Claim(2, 2, U256(2, 0, 0, 0), Harvester), 0, 0)

  lemma HalvesTxns()
    ensures TxnsOf([HALVES]) == {FIRST, SECOND} && NoPanic([HALVES]) && Feeless(HALVES)
  {
    assert HALVES in [HALVES] && HALVES.txns[7] == FIRST && HALVES.txns[8] == SECOND;
  }

  /** Two transfers of 2^127 by one new account to two others, in one block: all three
      accounts take part, 2^128 is credited and nothing is debited. */
  lemma WrapAroundExample(order: seq<UpdateArgs>)
    requires NoPanic([HALVES]) && Enumerates(order, RoundArgs([HALVES]))
    ensures var before := NewAccounts({1, 3} + {0});
            && AllTakePart(before, [HALVES])
            && Gained(before, order, true) == 0
            && Gained(before, order, false) - FeesGained(before, [HALVES]) == U128
            && 7 in UpdatedAccounts(before, order)[0].digests.sent
  {
    HalvesTxns();
    NoFees(HALVES, 0);
    NoFees(HALVES, 1);
    NoFees(HALVES, 3);
    WrapAround([HALVES], order, FIRST, SECOND);
  }
}
