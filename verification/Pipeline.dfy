/** The miner's output met by the state manager: mining a round and applying its
    convergence block, end to end. */
module Pipeline {
  import opened Options
  import opened Orders
  import opened Elections
  import opened Blocks
  import opened Miner
  import opened Accounts
  import opened Batch
  import opened Transfers
  import opened RoundState
  import opened AccountEffects

  /** The proposals the DAG lists as sources of the convergence block: the original
      blocks whose hashes it references, in any order. */
  ghost predicate SourcesOf(dag: seq<ProposalBlock>, proposals: seq<ProposalBlock>, c: ConvergenceBlock) {
    && (forall b <- dag :: b in proposals && b.hash in c.refHashes)
    && (forall h <- c.refHashes :: exists b :: b in dag && b.hash == h)
  }

  lemma KeepingRestores(p: ProposalBlock, r: ProposalBlock)
    requires Thinned(p, r)
    ensures Keeping(p, r.txns.Keys) == r
  {
    assert Keeping(p, r.txns.Keys).txns == r.txns;
  }

  lemma SameHashSameBlock(blocks: seq<ProposalBlock>, a: ProposalBlock, b: ProposalBlock)
    requires DistinctBlocks(blocks) && a in blocks && b in blocks && a.hash == b.hash
    ensures a == b
  {
  }

  /** Filtering an original proposal by the consolidated map gives back the miner's
      resolved version of it. */
  lemma FilterRestores(proposals: seq<ProposalBlock>, r: seq<ProposalBlock>, b: ProposalBlock, i: nat)
    requires DistinctBlocks(proposals) && DistinctBlocks(r)
    requires forall k :: 0 <= k < |r| ==> exists p :: p in proposals && Thinned(p, r[k])
    requires b in proposals && i < |r| && r[i].hash == b.hash
    ensures FilterBlock(b, Build(r)) == r[i]
  {
    ConsolidatedExactly(r);
    var p :| p in proposals && Thinned(p, r[i]);
    SameHashSameBlock(proposals, p, b);
    KeepingRestores(b, r[i]);
  }

  ghost predicate SameBlocks(a: seq<ProposalBlock>, b: seq<ProposalBlock>) {
    forall x :: x in a <==> x in b
  }

  /** Round trip: filtering the original DAG proposals by the convergence block built
      from the resolved proposals reproduces exactly the resolved proposals. */
  lemma RoundTrip(proposals: seq<ProposalBlock>, lastRound: Option<nat>, seed: Word, trace: Trace, iter: Iteration,
                  dag: seq<ProposalBlock>)
    requires Iterates(iter) && DistinctBlocks(proposals)
    requires Settle(Candidates(proposals, lastRound, trace), seed, iter).Some?
    requires SourcesOf(dag, proposals, Build(Settle(Candidates(proposals, lastRound, trace), seed, iter).value))
    ensures var r := Settle(Candidates(proposals, lastRound, trace), seed, iter).value;
            SameBlocks(FilterAll(dag, Build(r)), r)
  {
    var r := Settle(Candidates(proposals, lastRound, trace), seed, iter).value;
    ResolvedFromProposals(proposals, lastRound, seed, trace, iter);
    FilterAllRestores(proposals, r, dag);
  }

  lemma FilterAllRestores(proposals: seq<ProposalBlock>, r: seq<ProposalBlock>, dag: seq<ProposalBlock>)
    requires DistinctBlocks(proposals) && DistinctBlocks(r) && SourcesOf(dag, proposals, Build(r))
    requires forall k :: 0 <= k < |r| ==> exists p :: p in proposals && Thinned(p, r[k])
    ensures SameBlocks(FilterAll(dag, Build(r)), r)
  {
    var c := Build(r);
    forall k | 0 <= k < |dag| ensures FilterAll(dag, c)[k] in r {
      assert dag[k] in dag && dag[k].hash in RefHashes(r);
      var i: nat :| i < |r| && RefHashes(r)[i] == dag[k].hash;
      FilterRestores(proposals, r, dag[k], i);
    }
    forall i: nat | i < |r| ensures r[i] in FilterAll(dag, c) {
      assert RefHashes(r)[i] in c.refHashes;
      var b :| b in dag && b.hash == r[i].hash;
      var k :| 0 <= k < |dag| && dag[k] == b;
      FilterRestores(proposals, r, b, i);
      assert FilterAll(dag, c)[k] == r[i];
    }
  }

  // ---- Mining and applying ------------------------------------------------

  lemma SameBlocksSameRound(a: seq<ProposalBlock>, b: seq<ProposalBlock>)
    requires SameBlocks(a, b)
    ensures TxnsOf(a) == TxnsOf(b) && (NoPanic(a) <==> NoPanic(b))
    ensures NoPanic(a) ==> RoundArgs(a) == RoundArgs(b)
  {
    if NoPanic(a) {
      assert RoundUpdatesOf(a) == RoundUpdatesOf(b);
    }
  }

  lemma FewerDigestsIdentify(ts: set<Txn>, all: set<Txn>)
    requires ts <= all && DigestsIdentify(all)
    ensures DigestsIdentify(ts)
  {
  }

  lemma ResolvedTxns(proposals: seq<ProposalBlock>, r: seq<ProposalBlock>)
    requires forall k :: 0 <= k < |r| ==> exists p :: p in proposals && Thinned(p, r[k])
    ensures TxnsOf(r) <= TxnsOf(proposals)
  {
    forall t | t in TxnsOf(r) ensures t in TxnsOf(proposals) {
      var b, d :| b in r && d in b.txns && b.txns[d] == t;
      var k :| 0 <= k < |r| && r[k] == b;
      var p :| p in proposals && Thinned(p, r[k]);
      assert p.txns[d] == t;
    }
  }

  /** A round mined from proposals and applied from the DAG, as one object. */
  datatype Mined = Mined(
    proposals: seq<ProposalBlock>, lastRound: Option<nat>, seed: Word, trace: Trace, iter: Iteration,
    dag: seq<ProposalBlock>)

  ghost predicate MinedOk(m: Mined) {
    && Iterates(m.iter) && DistinctBlocks(m.proposals) && DigestsIdentify(TxnsOf(m.proposals))
    && Settle(Candidates(m.proposals, m.lastRound, m.trace), m.seed, m.iter).Some?
    && SourcesOf(m.dag, m.proposals, Build(Resolution(m)))
  }

  function Resolution(m: Mined): seq<ProposalBlock>
    requires Iterates(m.iter) && Settle(Candidates(m.proposals, m.lastRound, m.trace), m.seed, m.iter).Some?
  {
    Settle(Candidates(m.proposals, m.lastRound, m.trace), m.seed, m.iter).value
  }

  /** What the state manager works on: the DAG's proposals after its filter. */
  function Applied(m: Mined): seq<ProposalBlock>
    requires Iterates(m.iter) && Settle(Candidates(m.proposals, m.lastRound, m.trace), m.seed, m.iter).Some?
  {
    FilterAll(m.dag, Build(Resolution(m)))
  }

  /** Miner and state manager agree on the round: the same transactions, hence the
      same updates, and `update_state` panics exactly if the miner's blocks would. */
  lemma MinerAndStateAgree(m: Mined)
    requires MinedOk(m)
    ensures TxnsOf(Applied(m)) == TxnsOf(Resolution(m)) <= TxnsOf(m.proposals)
    ensures DigestsIdentify(TxnsOf(Resolution(m)))
    ensures NoPanic(Applied(m)) <==> NoPanic(Resolution(m))
    ensures NoPanic(Applied(m)) ==> RoundArgs(Applied(m)) == RoundArgs(Resolution(m))
  {
    RoundTrip(m.proposals, m.lastRound, m.seed, m.trace, m.iter, m.dag);
    SameBlocksSameRound(Applied(m), Resolution(m));
    MinedTxns(m);
  }

  lemma MinedTxns(m: Mined)
    requires MinedOk(m)
    ensures TxnsOf(Resolution(m)) <= TxnsOf(m.proposals) && DigestsIdentify(TxnsOf(Resolution(m)))
  {
    ResolvedFromProposals(m.proposals, m.lastRound, m.seed, m.trace, m.iter);
    ResolvedTxns(m.proposals, Resolution(m));
    FewerDigestsIdentify(TxnsOf(Resolution(m)), TxnsOf(m.proposals));
  }

  /** End to end: after `update_state` has applied a mined round, an existing account
      has been debited and credited exactly by the transactions of the miner's
      resolved blocks, or, if it could not be accepted, not at all. */
  lemma MinedRoundReachesAccount(m: Mined, s: AccountState, order: seq<UpdateArgs>, a: Address)
    requires MinedOk(m) && NoPanic(Applied(m)) && Enumerates(order, RoundArgs(Applied(m)))
    ensures NoPanic(Resolution(m))
    ensures var r, s' := Resolution(m), UpdatedAccount(s, Of(order, a));
            if Of(order, a) != [] && Accepted(s, r, a) then
              && s'.credits == s.credits + CreditedTo(r, a)
              && s'.debits == s.debits + Debited(r, a)
              && s'.digests.sent == s.digests.sent + Ids(Party(TxnsOf(r), a, true))
              && s'.digests.recv == s.digests.recv + Ids(Party(TxnsOf(r), a, false))
              && s'.digests.stake == s.digests.stake
              && Advanced(s.nonce, s'.nonce, Party(TxnsOf(r), a, true))
            else s' == s
  {
    MinerAndStateAgree(m);
    EffectOnAccount(s, Resolution(m), order, a);
  }

  /** Every transaction of the resolved blocks is written to the transaction store,
      whatever becomes of the accounts; its digest enters the sender's account `s`, and
      the receiver's account `q`, exactly when that account is accepted or listed it before. */
  lemma StoredAndSent(m: Mined, s: AccountState, q: AccountState, order: seq<UpdateArgs>, t: Txn,
                      before: map<Digest, Txn>, after: map<Digest, Txn>)
    requires MinedOk(m) && NoPanic(Applied(m)) && Enumerates(order, RoundArgs(Applied(m)))
    requires t in TxnsOf(Resolution(m)) && Stored(before, after, TxnsOf(Applied(m)))
    ensures t.id in after && after[t.id] == t
    ensures NoPanic(Resolution(m))
    ensures t.id in UpdatedAccount(s, Of(order, t.sender)).digests.sent <==>
            t.id in s.digests.sent || Accepted(s, Resolution(m), t.sender)
    ensures t.id in UpdatedAccount(q, Of(order, t.receiver)).digests.recv <==>
            t.id in q.digests.recv || Accepted(q, Resolution(m), t.receiver)
  {
    MinerAndStateAgree(m);
    assert t.id in Ids(TxnsOf(Applied(m)));
    Listed(m, s, order, t, true);
    Listed(m, q, order, t, false);
  }

  lemma Listed(m: Mined, s: AccountState, order: seq<UpdateArgs>, t: Txn, sent: bool)
    requires MinedOk(m) && NoPanic(Applied(m)) && Enumerates(order, RoundArgs(Applied(m)))
    requires t in TxnsOf(Resolution(m))
    ensures NoPanic(Resolution(m))
    ensures var a := if sent then t.sender else t.receiver;
            var s' := UpdatedAccount(s, Of(order, a));
            && (Accepted(s, Resolution(m), a) && sent ==> t.id in s'.digests.sent)
            && (Accepted(s, Resolution(m), a) && !sent ==> t.id in s'.digests.recv)
            && (!Accepted(s, Resolution(m), a) ==> s' == s)
            && s.digests.sent <= s'.digests.sent && s.digests.recv <= s'.digests.recv
  {
    var a := if sent then t.sender else t.receiver;
    MinerAndStateAgree(m);
    MinedRoundReachesAccount(m, s, order, a);
    OwnUpdates(Resolution(m), order, a, Side(t, sent));
    assert t in Party(TxnsOf(Resolution(m)), a, sent);
    assert t.id in Ids(Party(TxnsOf(Resolution(m)), a, sent));
  }
}
