/** A mined round whose transaction is stored although its sender's account does not
    change: the store and the accounts need not agree. */
module PipelineExample {
  import opened Options
  import opened Orders
  import opened Elections
  import opened Blocks
  import opened Conflicts
  import opened Miner
  import opened Accounts
  import opened Batch
  import opened Transfers
  import opened RoundState
  import opened AccountEffects
  import opened Pipeline

  /** One block of the last block's round with one transaction, found in the DAG as it was proposed. */
  const BLOCK := ExampleBlock(0, 1, 2, 7)
  const TXN := BLOCK.txns[7]

  function Example(seed: Word, trace: Trace, iter: Iteration): Mined {
    Mined([BLOCK], Some(1), seed, trace, iter, [BLOCK])
  }

  lemma OnlyCandidate(trace: Trace)
    ensures Candidates([BLOCK], Some(1), trace) == [BLOCK]
  {
    assert [BLOCK][..0] == [];
    assert OfRound([BLOCK], 1, true) == [BLOCK] && OfRound([BLOCK], 1, false) == [];
    assert OfRound([], 2, false) == [];
  }

  lemma NoConflict(b: ProposalBlock)
    ensures ConflictsOf([b]) == map[]
  {
    forall d | d in ConflictsOf([b]) ensures false {
      assert Proposers([b], d) <= {BallotOf(b)};
      SubsetSize(Proposers([b], d), {BallotOf(b)});
    }
  }

  lemma SomethingListed(order: seq<Digest>)
    ensures order == [] || exists d :: d in order
  {
    if order != [] {
      assert order[0] in order;
    }
  }

  lemma SettlesAlone(b: ProposalBlock, seed: Word, iter: Iteration)
    requires Iterates(iter)
    ensures Settle([b], seed, iter) == Some([b])
  {
    NoConflict(b);
    assert Enumerates(iter({}), {});
    SomethingListed(iter({}));
    assert ResolvedBlock(b, map[]).txns == b.txns;
    assert ResolvedBlocks([b], map[]) == [b];
  }

  lemma AloneRoundTrip(b: ProposalBlock)
    ensures SourcesOf([b], [b], Build([b])) && FilterAll([b], Build([b])) == [b]
  {
    assert RefHashes([b]) == [b.hash];
    assert b in [b] && Thinned(b, b);
    FilterRestores([b], [b], b, 0);
  }

  lemma ExampleIsMined(seed: Word, trace: Trace, iter: Iteration)
    requires Iterates(iter)
    ensures MinedOk(Example(seed, trace, iter)) && Resolution(Example(seed, trace, iter)) == [BLOCK]
    ensures Applied(Example(seed, trace, iter)) == [BLOCK]
  {
    OnlyCandidate(trace);
    SettlesAlone(BLOCK, seed, iter);
    AloneRoundTrip(BLOCK);
    ExampleTxns();
  }

  lemma ExampleTxns()
    ensures TxnsOf([BLOCK]) == {TXN} && NoPanic([BLOCK])
  {
    assert BLOCK in [BLOCK] && 7 in BLOCK.txns;
  }

  /** For every seed, DAG, iteration order and store: a sender whose nonce is already
      above the transaction's keeps its account, digests included, while the
      transaction is stored. */
  lemma StoredButNotSent(seed: Word, trace: Trace, iter: Iteration, order: seq<UpdateArgs>,
                         before: map<Digest, Txn>, after: map<Digest, Txn>)
    requires Iterates(iter) && Stored(before, after, {TXN})
    requires NoPanic([BLOCK]) && Enumerates(order, RoundArgs([BLOCK]))
    ensures var m := Example(seed, trace, iter);
            MinedOk(m) && Applied(m) == [BLOCK] && TxnsOf(Applied(m)) == {TXN}
    ensures var stale := NEW_ACCOUNT.(nonce := TXN.nonce + 1);
            && TXN.id in after && after[TXN.id] == TXN
            && UpdatedAccount(stale, Of(order, TXN.sender)) == stale && TXN.id !in stale.digests.sent
  {
    var m, stale := Example(seed, trace, iter), NEW_ACCOUNT.(nonce := TXN.nonce + 1);
    ExampleIsMined(seed, trace, iter);
    ExampleTxns();
    StoredAndSent(m, stale, NEW_ACCOUNT, order, TXN, before, after);
    StaleIsRejected(stale);
    Listed(m, stale, order, TXN, true);
  }

  lemma StaleIsRejected(s: AccountState)
    requires NoPanic([BLOCK]) && s.nonce > TXN.nonce
    ensures !Accepted(s, [BLOCK], TXN.sender)
  {
    ExampleTxns();
    assert TXN in Party({TXN}, TXN.sender, true);
  }
}
