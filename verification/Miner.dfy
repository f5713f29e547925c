/** The miner's block building (`miner_impl.rs`, `miner.rs`): proposals are split by
    round, late ones are stripped, conflicts are resolved, and what is left is
    consolidated into a convergence block. */
module Miner {
  import opened Options
  import opened Orders
  import opened Elections
  import opened Blocks
  import opened Conflicts

  /** The convergence blocks found in the DAG from a proposal's reference on. */
  type Trace = RefHash -> seq<ConvergenceBlock>

  /** An iteration order for every hash map keyed by digests. */
  type Iteration = set<Digest> -> seq<Digest>

  ghost predicate Iterates(iter: Iteration) {
    forall keys :: Enumerates(iter(keys), keys)
  }

  // ---- Rounds -------------------------------------------------------------

  /** The blocks of the round, or with `same` false the blocks of all other rounds, in order. */
  function OfRound(blocks: seq<ProposalBlock>, round: nat, same: bool): (r: seq<ProposalBlock>)
    ensures forall b :: b in r <==> b in blocks && (b.round == round) == same
  {
    if blocks == [] then []
    else
      var last := |blocks| - 1;
      var before := OfRound(blocks[..last], round, same);
      assert blocks == blocks[..last] + [blocks[last]];
      if (blocks[last].round == round) == same then before + [blocks[last]] else before
  }

  lemma {:induction false} OfRoundDistinct(blocks: seq<ProposalBlock>, round: nat, same: bool)
    requires DistinctBlocks(blocks)
    ensures DistinctBlocks(OfRound(blocks, round, same))
  {
    if blocks != [] {
      var last := |blocks| - 1;
      OfRoundDistinct(blocks[..last], round, same);
      forall b | b in OfRound(blocks[..last], round, same) ensures b.hash != blocks[last].hash { }
    }
  }

  /** `split_proposals_by_round`: with no last block both halves are empty. */
  method SplitProposalsByRound(proposals: seq<ProposalBlock>, lastRound: Option<nat>)
    returns (curr: seq<ProposalBlock>, prev: seq<ProposalBlock>)
    ensures lastRound.None? ==> curr == [] && prev == []
    ensures lastRound.Some? ==> curr == OfRound(proposals, lastRound.value, true)
    ensures lastRound.Some? ==> prev == OfRound(proposals, lastRound.value, false)
  {
    curr, prev := [], [];
    if lastRound.Some? {
      for i := 0 to |proposals|
        invariant curr == OfRound(proposals[..i], lastRound.value, true)
        invariant prev == OfRound(proposals[..i], lastRound.value, false)
      {
        assert proposals[..i + 1][..i] == proposals[..i];
        if proposals[i].round == lastRound.value {
          curr := curr + [proposals[i]];
        } else {
          prev := prev + [proposals[i]];
        }
      }
      assert proposals[..|proposals|] == proposals;
    }
  }

  // ---- Late proposals -----------------------------------------------------

  /** The transactions recorded in any convergence block traced from any late proposal. */
  function Removals(prev: seq<ProposalBlock>, trace: Trace): set<Digest> {
    set p, c, h, d | p in prev && c in trace(p.refBlock) && h in c.txns && d in c.txns[h] :: d
  }

  function Stripped(b: ProposalBlock, removals: set<Digest>): ProposalBlock {
    Keeping(b, b.txns.Keys - removals)
  }

  /** `resolve_earlier`: blocks of the round being mined are filtered out of the late
      ones, the rest loses its confirmed transactions. */
  function ResolveEarlier(prev: seq<ProposalBlock>, round: nat, trace: Trace): (r: seq<ProposalBlock>) {
    var late := OfRound(prev, round, false);
    seq(|late|, i requires 0 <= i < |late| => Stripped(late[i], Removals(prev, trace)))
  }

  /** What takes part in conflict resolution: the proposals of the last block's round
      and the stripped late ones.  The round being mined is the last block's plus one. */
  function Candidates(proposals: seq<ProposalBlock>, lastRound: Option<nat>, trace: Trace): seq<ProposalBlock> {
    if lastRound.None? then []
    else
      OfRound(proposals, lastRound.value, true)
      + ResolveEarlier(OfRound(proposals, lastRound.value, false), lastRound.value + 1, trace)
  }

  // ---- Resolution ---------------------------------------------------------

  function ProposersOf(blocks: seq<ProposalBlock>): seq<Ballot> {
    seq(|blocks|, i requires 0 <= i < |blocks| => BallotOf(blocks[i]))
  }

  /** The election among the candidates and the removal of the losers' transactions;
      `None` if the winner loop never ends. */
  function Settle(curr: seq<ProposalBlock>, seed: Word, iter: Iteration): Option<seq<ProposalBlock>>
    requires Iterates(iter)
  {
    var conflicts := ConflictsOf(curr);
    var won := AppendWinners(conflicts, ElectionOf(ProposersOf(curr), seed), iter(conflicts.Keys));
    if won.None? then None else Some(ResolvedBlocks(curr, won.value))
  }

  method SettleInPlace(curr: seq<ProposalBlock>, seed: Word, iter: Iteration) returns (r: Option<seq<ProposalBlock>>)
    requires Iterates(iter)
    ensures r == Settle(curr, seed, iter)
  {
    var conflicts := Identify(curr);
    var won := AppendWinner(conflicts, ElectionOf(ProposersOf(curr), seed), iter(conflicts.Keys));
    if won.None? {
      return None;
    }
    var resolved := new ProposalBlock[|curr|](i requires 0 <= i < |curr| => curr[i]);
    assert resolved[..] == curr;
    ResolveCurrent(resolved, won.value);
    r := Some(resolved[..]);
  }

  /** `resolve`, the whole pipeline. */
  method Resolve(
    proposals: seq<ProposalBlock>, lastRound: Option<nat>, seed: Word, trace: Trace, iter: Iteration)
    returns (r: Option<seq<ProposalBlock>>)
    requires Iterates(iter)
    ensures r == Settle(Candidates(proposals, lastRound, trace), seed, iter)
  {
    var curr, prev := SplitProposalsByRound(proposals, lastRound);
    if lastRound.Some? {
      curr := curr + ResolveEarlier(prev, lastRound.value + 1, trace);
    }
    assert curr == Candidates(proposals, lastRound, trace);
    r := SettleInPlace(curr, seed, iter);
  }

  // ---- What takes part ----------------------------------------------------

  /** What becomes of proposal `p` as a candidate: untouched if it is of the last
      block's round, otherwise without exactly the removed transactions. */
  ghost predicate TakesPartAs(p: ProposalBlock, c: ProposalBlock, lastRound: nat, removals: set<Digest>) {
    && p.round != lastRound + 1 && Thinned(p, c)
    && (if p.round == lastRound then c == p else c.txns.Keys == p.txns.Keys - removals)
  }

  /** A candidate is a proposal that is not of the round being mined; a late one has
      lost exactly the transactions recorded in a convergence block traced from any
      late proposal. */
  lemma CandidateIsProposal(proposals: seq<ProposalBlock>, lastRound: nat, trace: Trace, c: ProposalBlock)
    returns (p: ProposalBlock)
    requires c in Candidates(proposals, Some(lastRound), trace)
    ensures p in proposals
    ensures TakesPartAs(p, c, lastRound, Removals(OfRound(proposals, lastRound, false), trace))
  {
    if c in OfRound(proposals, lastRound, true) {
      p := c;
    } else {
      p := LateCandidate(OfRound(proposals, lastRound, false), lastRound + 1, trace, c);
    }
  }

  lemma LateCandidate(prev: seq<ProposalBlock>, round: nat, trace: Trace, c: ProposalBlock) returns (p: ProposalBlock)
    requires c in ResolveEarlier(prev, round, trace)
    ensures p in prev && p.round != round && Thinned(p, c) && c.txns.Keys == p.txns.Keys - Removals(prev, trace)
  {
    var late := OfRound(prev, round, false);
    var i :| 0 <= i < |late| && c == Stripped(late[i], Removals(prev, trace));
    p := late[i];
    assert p in late;
    StrippedLoses(p, Removals(prev, trace));
  }

  /** Some convergence block traced from a late proposal has recorded the transaction. */
  ghost predicate Recorded(proposals: seq<ProposalBlock>, lastRound: nat, trace: Trace, d: Digest) {
    exists q, v, h :: q in proposals && q.round != lastRound && v in trace(q.refBlock) && h in v.txns && d in v.txns[h]
  }

  lemma RemovedExactly(proposals: seq<ProposalBlock>, lastRound: nat, trace: Trace, d: Digest)
    ensures d in Removals(OfRound(proposals, lastRound, false), trace) <==> Recorded(proposals, lastRound, trace, d)
  {
  }

  /** A late candidate keeps a transaction exactly if no convergence block traced from any
      late proposal has recorded it; a current one keeps all. */
  lemma LateKeepsExactly(proposals: seq<ProposalBlock>, lastRound: nat, trace: Trace, c: ProposalBlock)
    returns (p: ProposalBlock)
    requires c in Candidates(proposals, Some(lastRound), trace)
    ensures p in proposals && p.hash == c.hash && p.round == c.round && p.round != lastRound + 1
    ensures forall d <- p.txns :: d in c.txns <==> p.round == lastRound || !Recorded(proposals, lastRound, trace, d)
    ensures forall d <- c.txns :: d in p.txns && c.txns[d] == p.txns[d]
  {
    p := CandidateIsProposal(proposals, lastRound, trace, c);
    forall d <- p.txns ensures d in c.txns <==> p.round == lastRound || !Recorded(proposals, lastRound, trace, d) {
      RemovedExactly(proposals, lastRound, trace, d);
    }
  }

  lemma StrippedLoses(p: ProposalBlock, removals: set<Digest>)
    ensures Thinned(p, Stripped(p, removals)) && Stripped(p, removals).txns.Keys == p.txns.Keys - removals
  {
  }

  /** Every proposal takes part, under its own hash, unless it is of the round being
      mined: such a proposal is neither current nor kept among the late ones. */
  lemma ProposalTakesPart(proposals: seq<ProposalBlock>, lastRound: nat, trace: Trace, p: ProposalBlock)
    requires DistinctBlocks(proposals) && p in proposals
    ensures p.round != lastRound + 1 <==>
            exists c :: c in Candidates(proposals, Some(lastRound), trace) && c.hash == p.hash
  {
    var all := Candidates(proposals, Some(lastRound), trace);
    var prev := OfRound(proposals, lastRound, false);
    if p.round == lastRound {
      assert p in all;
    } else if p.round != lastRound + 1 {
      var late := OfRound(prev, lastRound + 1, false);
      assert p in late;
      var i :| 0 <= i < |late| && late[i] == p;
      assert ResolveEarlier(prev, lastRound + 1, trace)[i] == Stripped(p, Removals(prev, trace));
      assert Stripped(p, Removals(prev, trace)) in all;
    } else if c :| c in all && c.hash == p.hash {
      var q := CandidateIsProposal(proposals, lastRound, trace, c);
      assert false;
    }
  }

  function Hashes(blocks: seq<ProposalBlock>): set<RefHash> {
    set b | b in blocks :: b.hash
  }

  lemma CandidatesDistinct(proposals: seq<ProposalBlock>, lastRound: Option<nat>, trace: Trace)
    requires DistinctBlocks(proposals)
    ensures DistinctBlocks(Candidates(proposals, lastRound, trace))
  {
    if lastRound.Some? {
      var prev := OfRound(proposals, lastRound.value, false);
      OfRoundDistinct(proposals, lastRound.value, false);
      ResolvedDistinct(prev, lastRound.value + 1, trace);
      RoundsDistinct(proposals, lastRound.value, ResolveEarlier(prev, lastRound.value + 1, trace));
    }
  }

  lemma RoundsDistinct(proposals: seq<ProposalBlock>, round: nat, others: seq<ProposalBlock>)
    requires DistinctBlocks(proposals) && DistinctBlocks(others)
    requires Hashes(others) <= Hashes(OfRound(proposals, round, false))
    ensures DistinctBlocks(OfRound(proposals, round, true) + others)
  {
    OfRoundDistinct(proposals, round, true);
    forall c, r | c in OfRound(proposals, round, true) && r in others ensures c.hash != r.hash {
      assert r.hash in Hashes(others);
      var l :| l in OfRound(proposals, round, false) && l.hash == r.hash;
      assert c in proposals && l in proposals;
    }
    DistinctTogether(OfRound(proposals, round, true), others);
  }

  lemma ResolvedDistinct(prev: seq<ProposalBlock>, round: nat, trace: Trace)
    requires DistinctBlocks(prev)
    ensures DistinctBlocks(ResolveEarlier(prev, round, trace))
    ensures Hashes(ResolveEarlier(prev, round, trace)) <= Hashes(prev)
  {
    var late := OfRound(prev, round, false);
    OfRoundDistinct(prev, round, false);
    forall i | 0 <= i < |late| ensures late[i] in prev {
      assert late[i] in late;
    }
  }

  lemma DistinctTogether(a: seq<ProposalBlock>, b: seq<ProposalBlock>)
    requires DistinctBlocks(a) && DistinctBlocks(b)
    requires forall x, y :: x in a && y in b ==> x.hash != y.hash
    ensures DistinctBlocks(a + b)
  {
  }

  // ---- When resolution ends -----------------------------------------------

  /** The block's entry is the one its claim keeps in the election map: no later block
      is of the same claim, as a late block of it would be. */
  ghost predicate KeepsEntry(blocks: seq<ProposalBlock>, i: nat)
    requires i < |blocks|
  {
    forall j :: i < j < |blocks| ==> blocks[j].from.hash != blocks[i].from.hash
  }

  lemma KeepsEntryExactly(blocks: seq<ProposalBlock>, seed: Word, i: nat)
    requires i < |blocks|
    ensures KeepsEntry(blocks, i) <==> LastOfKey(Votes(ProposersOf(blocks), seed), i)
  {
    var votes := Votes(ProposersOf(blocks), seed);
    forall j | i < j < |blocks| ensures votes[j].0 == votes[i].0 <==> blocks[j].from.hash == blocks[i].from.hash {
      if blocks[j].from.hash != blocks[i].from.hash {
        XorInjective(blocks[j].from.hash, blocks[i].from.hash, seed);
      }
    }
  }

  lemma BlockHasEntry(blocks: seq<ProposalBlock>, seed: Word, i: nat)
    requires i < |blocks| && KeepsEntry(blocks, i)
    ensures var e, k := ElectionOf(ProposersOf(blocks), seed), Xor(blocks[i].from.hash, seed);
            k in e && e[k] == BallotOf(blocks[i])
  {
    var votes, e := Votes(ProposersOf(blocks), seed), ElectionOf(ProposersOf(blocks), seed);
    KeepsEntryExactly(blocks, seed, i);
    LastDecides(votes, i);
    assert e[votes[i].0] == BallotOf(blocks[i]);
  }

  lemma EntryHasBlock(blocks: seq<ProposalBlock>, seed: Word, k: U256) returns (i: nat)
    requires k in ElectionOf(ProposersOf(blocks), seed)
    ensures i < |blocks| && KeepsEntry(blocks, i)
    ensures ElectionOf(ProposersOf(blocks), seed)[k] == BallotOf(blocks[i]) && k == Xor(blocks[i].from.hash, seed)
  {
    i := LastExists(Votes(ProposersOf(blocks), seed), k);
    KeepsEntryExactly(blocks, seed, i);
  }

  lemma ProposedIt(blocks: seq<ProposalBlock>, i: nat, d: Digest)
    requires DistinctBlocks(blocks) && i < |blocks|
    ensures BallotOf(blocks[i]) in Proposers(blocks, d) <==> d in blocks[i].txns
  {
    if BallotOf(blocks[i]) in Proposers(blocks, d) {
      var b :| b in blocks && d in b.txns && BallotOf(b) == BallotOf(blocks[i]);
      var j :| 0 <= j < |blocks| && blocks[j] == b;
      assert i == j;
    }
  }

  /** Block `i` contains every conflicted transaction. */
  ghost predicate HasAllConflicts(blocks: seq<ProposalBlock>, i: nat)
    requires i < |blocks|
  {
    forall d <- ConflictsOf(blocks) :: d in blocks[i].txns
  }

  lemma ProposedAllConflicts(blocks: seq<ProposalBlock>, i: nat)
    requires DistinctBlocks(blocks) && i < |blocks|
    ensures ProposedAll(ConflictsOf(blocks), BallotOf(blocks[i])) <==> HasAllConflicts(blocks, i)
  {
    var all := ConflictsOf(blocks);
    forall d <- all ensures BallotOf(blocks[i]) in all[d].proposers <==> d in blocks[i].txns {
      ProposedIt(blocks, i, d);
    }
  }

  /** Resolution ends, for every iteration order, exactly when there is no conflict or
      some block contains every conflicted transaction and no later block is of the
      same claim. */
  lemma SettleEndsExactly(blocks: seq<ProposalBlock>, seed: Word, iter: Iteration)
    requires Iterates(iter) && DistinctBlocks(blocks)
    ensures Settle(blocks, seed, iter).Some? <==>
            || ConflictsOf(blocks) == map[]
            || exists i: nat :: i < |blocks| && KeepsEntry(blocks, i) && HasAllConflicts(blocks, i)
  {
    var all, e := ConflictsOf(blocks), ElectionOf(ProposersOf(blocks), seed);
    AppendWinnerEndsExactly(all, e, iter(all.Keys));
    if k :| k in e && ProposedAll(all, e[k]) {
      var i := EntryHasBlock(blocks, seed, k);
      ProposedAllConflicts(blocks, i);
    }
    if i: nat :| i < |blocks| && KeepsEntry(blocks, i) && HasAllConflicts(blocks, i) {
      BlockHasEntry(blocks, seed, i);
      ProposedAllConflicts(blocks, i);
    }
  }

  /** The same of the whole of `resolve`, whose late blocks come after the current ones. */
  lemma ResolveEndsExactly(
    proposals: seq<ProposalBlock>, lastRound: Option<nat>, seed: Word, trace: Trace, iter: Iteration)
    requires Iterates(iter) && DistinctBlocks(proposals)
    ensures var blocks := Candidates(proposals, lastRound, trace);
            Settle(blocks, seed, iter).Some? <==>
              || ConflictsOf(blocks) == map[]
              || exists i: nat :: i < |blocks| && KeepsEntry(blocks, i) && HasAllConflicts(blocks, i)
  {
    CandidatesDistinct(proposals, lastRound, trace);
    SettleEndsExactly(Candidates(proposals, lastRound, trace), seed, iter);
  }

  /** Two conflicts that no single block takes part in both of hang the miner. */
  lemma IndependentConflictsHang(blocks: seq<ProposalBlock>, d: Digest, f: Digest, seed: Word, iter: Iteration)
    requires Iterates(iter) && DistinctBlocks(blocks)
    requires d in ConflictsOf(blocks) && f in ConflictsOf(blocks)
    requires forall i :: 0 <= i < |blocks| ==> d !in blocks[i].txns || f !in blocks[i].txns
    ensures Settle(blocks, seed, iter) == None
  {
    SettleEndsExactly(blocks, seed, iter);
    forall i: nat | i < |blocks| ensures !HasAllConflicts(blocks, i) { }
  }

  /** One conflict is enough if all its proposers have a later block: those later
      blocks have taken their places in the election map. */
  lemma SupersededConflictHangs(blocks: seq<ProposalBlock>, d: Digest, seed: Word, iter: Iteration)
    requires Iterates(iter) && DistinctBlocks(blocks) && d in ConflictsOf(blocks)
    requires forall i: nat :: i < |blocks| && d in blocks[i].txns ==> !KeepsEntry(blocks, i)
    ensures Settle(blocks, seed, iter) == None
  {
    SettleEndsExactly(blocks, seed, iter);
    forall i: nat | i < |blocks| ensures !(KeepsEntry(blocks, i) && HasAllConflicts(blocks, i)) { }
  }

  /** Block `i` of an example: of claim `claim`, with the one transaction `d`. */
  function ExampleBlock(i: nat, round: nat, claim: nat, d: Digest): ProposalBlock
    requires claim < 4
  {
    ProposalBlock(0, round, 0, map[d := Txn(d, 0, 1, 0, 1, 1, None, 0, 0)], map[],
                  Claim(claim, claim, U256(claim, 0, 0, 0), Harvester), i, 0)
  }

  /** Two blocks both propose `d` and two others both propose `f`. */
  lemma TwoPairsHang(a: ProposalBlock, b: ProposalBlock, c: ProposalBlock, e: ProposalBlock, d: Digest, f: Digest,
                     seed: Word, iter: Iteration)
    requires Iterates(iter) && DistinctBlocks([a, b, c, e]) && d != f
    requires a.txns.Keys == b.txns.Keys == {d} && c.txns.Keys == e.txns.Keys == {f}
    ensures Settle([a, b, c, e], seed, iter) == None
  {
    var blocks := [a, b, c, e];
    TwoProposersConflict(blocks, d, 0, 1);
    TwoProposersConflict(blocks, f, 2, 3);
    IndependentConflictsHang(blocks, d, f, seed, iter);
  }

  lemma HangExample(seed: Word, iter: Iteration)
    requires Iterates(iter)
    ensures Settle([ExampleBlock(0, 1, 0, 0), ExampleBlock(1, 1, 1, 0),
                    ExampleBlock(2, 1, 2, 1), ExampleBlock(3, 1, 3, 1)], seed, iter) == None
  {
    TwoPairsHang(ExampleBlock(0, 1, 0, 0), ExampleBlock(1, 1, 1, 0),
                 ExampleBlock(2, 1, 2, 1), ExampleBlock(3, 1, 3, 1), 0, 1, seed, iter);
  }

  /** Two claims both propose `d`, and each has another block after it without `d`. */
  lemma TwoSupersededHang(a: ProposalBlock, b: ProposalBlock, c: ProposalBlock, e: ProposalBlock, d: Digest,
                          seed: Word, iter: Iteration)
    requires Iterates(iter) && DistinctBlocks([a, b, c, e])
    requires d in a.txns && d in b.txns && d !in c.txns && d !in e.txns
    requires a.from.hash == c.from.hash && b.from.hash == e.from.hash
    ensures Settle([a, b, c, e], seed, iter) == None
  {
    var blocks := [a, b, c, e];
    TwoProposersConflict(blocks, d, 0, 1);
    assert blocks[2].from.hash == blocks[0].from.hash && blocks[3].from.hash == blocks[1].from.hash;
    SupersededConflictHangs(blocks, d, seed, iter);
  }

  /** Two claims propose transaction 1 in the current round and each has a late block
      as well. */
  const CURRENT := [ExampleBlock(0, 1, 0, 1), ExampleBlock(1, 1, 1, 1)]
  const LATE := [ExampleBlock(2, 0, 0, 2), ExampleBlock(3, 0, 1, 3)]

  lemma {:induction false} OfRoundSplits(a: seq<ProposalBlock>, b: seq<ProposalBlock>, round: nat, same: bool)
    ensures OfRound(a + b, round, same) == OfRound(a, round, same) + OfRound(b, round, same)
    decreases |b|
  {
    if b == [] {
      assert a + b == a;
    } else {
      assert (a + b)[..|a + b| - 1] == a + b[..|b| - 1];
      OfRoundSplits(a, b[..|b| - 1], round, same);
    }
  }

  lemma {:induction false} AllOrNone(a: seq<ProposalBlock>, round: nat, same: bool)
    ensures (forall x <- a :: (x.round == round) == same) ==> OfRound(a, round, same) == a
    ensures (forall x <- a :: (x.round == round) != same) ==> OfRound(a, round, same) == []
  {
    if a != [] {
      AllOrNone(a[..|a| - 1], round, same);
      assert a == a[..|a| - 1] + [a[|a| - 1]];
    }
  }

  lemma NothingStripped(b: ProposalBlock)
    ensures Stripped(b, {}) == b
  {
    assert Stripped(b, {}).txns == b.txns;
  }

  /** With nothing confirmed yet, current blocks followed by late ones are the candidates. */
  lemma CandidatesAsListed(curr: seq<ProposalBlock>, late: seq<ProposalBlock>, lastRound: nat, trace: Trace)
    requires (forall b <- curr :: b.round == lastRound) && (forall b <- late :: b.round < lastRound)
    requires forall h :: trace(h) == []
    ensures Candidates(curr + late, Some(lastRound), trace) == curr + late
  {
    RoundsAsListed(curr, late, lastRound);
    LateAsListed(late, lastRound + 1, trace);
    CandidatesFrom(curr + late, lastRound, trace, late);
  }

  lemma CandidatesFrom(proposals: seq<ProposalBlock>, lastRound: nat, trace: Trace, late: seq<ProposalBlock>)
    requires OfRound(proposals, lastRound, false) == late
    ensures Candidates(proposals, Some(lastRound), trace) ==
            OfRound(proposals, lastRound, true) + ResolveEarlier(late, lastRound + 1, trace)
  {
  }

  lemma RoundsAsListed(curr: seq<ProposalBlock>, late: seq<ProposalBlock>, round: nat)
    requires (forall b <- curr :: b.round == round) && (forall b <- late :: b.round < round)
    ensures OfRound(curr + late, round, true) == curr && OfRound(curr + late, round, false) == late
  {
    OfRoundSplits(curr, late, round, true);
    OfRoundSplits(curr, late, round, false);
    AllOrNone(curr, round, true);
    AllOrNone(curr, round, false);
    AllOrNone(late, round, true);
    AllOrNone(late, round, false);
  }

  lemma LateAsListed(late: seq<ProposalBlock>, round: nat, trace: Trace)
    requires (forall b <- late :: b.round < round) && (forall h :: trace(h) == [])
    ensures ResolveEarlier(late, round, trace) == late
  {
    AllOrNone(late, round, false);
    assert Removals(late, trace) == {};
    forall b ensures Stripped(b, {}) == b {
      NothingStripped(b);
    }
  }

  /** One conflict, which both current blocks contain: `resolve` runs for ever on these
      proposals if no convergence block has recorded anything. */
  lemma SupersededExample(seed: Word, trace: Trace, iter: Iteration)
    requires Iterates(iter) && forall h :: trace(h) == []
    ensures Settle(Candidates(CURRENT + LATE, Some(1), trace), seed, iter) == None
  {
    CandidatesAsListed(CURRENT, LATE, 1, trace);
    SupersededPair(seed, iter);
  }

  lemma SupersededPair(seed: Word, iter: Iteration)
    requires Iterates(iter)
    ensures Settle(CURRENT + LATE, seed, iter) == None
  {
    TwoSupersededHang(CURRENT[0], CURRENT[1], LATE[0], LATE[1], 1, seed, iter);
    assert CURRENT + LATE == [CURRENT[0], CURRENT[1], LATE[0], LATE[1]];
  }

  // ---- The convergence block ----------------------------------------------

  function ConsolidateTxns(blocks: seq<ProposalBlock>): map<RefHash, set<Digest>> {
    if blocks == [] then map[]
    else var last := |blocks| - 1; ConsolidateTxns(blocks[..last])[blocks[last].hash := blocks[last].txns.Keys]
  }

  function ConsolidateClaims(blocks: seq<ProposalBlock>): map<RefHash, set<U256>> {
    if blocks == [] then map[]
    else var last := |blocks| - 1; ConsolidateClaims(blocks[..last])[blocks[last].hash := blocks[last].claims.Keys]
  }

  function RefHashes(blocks: seq<ProposalBlock>): seq<RefHash> {
    seq(|blocks|, i requires 0 <= i < |blocks| => blocks[i].hash)
  }

  /** `build`, up to the header and the block's own hash. */
  function Build(resolved: seq<ProposalBlock>): ConvergenceBlock {
    ConvergenceBlock(RefHashes(resolved), ConsolidateTxns(resolved), ConsolidateClaims(resolved))
  }

  lemma {:induction false} ConsolidatedExactly(blocks: seq<ProposalBlock>)
    requires DistinctBlocks(blocks)
    ensures forall h :: h in ConsolidateTxns(blocks) <==> h in RefHashes(blocks)
    ensures forall i :: 0 <= i < |blocks| ==>
              && blocks[i].hash in ConsolidateTxns(blocks)
              && ConsolidateTxns(blocks)[blocks[i].hash] == blocks[i].txns.Keys
  {
    if blocks != [] {
      var last := |blocks| - 1;
      ConsolidatedExactly(blocks[..last]);
      assert RefHashes(blocks) == RefHashes(blocks[..last]) + [blocks[last].hash];
    }
  }

  /** The consolidated claims have exactly the blocks' hashes, each with exactly its claims. */
  lemma {:induction false} ClaimsExactly(blocks: seq<ProposalBlock>)
    requires DistinctBlocks(blocks)
    ensures forall h :: h in ConsolidateClaims(blocks) <==> h in RefHashes(blocks)
    ensures forall i :: 0 <= i < |blocks| ==>
              && blocks[i].hash in ConsolidateClaims(blocks)
              && ConsolidateClaims(blocks)[blocks[i].hash] == blocks[i].claims.Keys
  {
    if blocks != [] {
      var last := |blocks| - 1;
      ClaimsExactly(blocks[..last]);
      assert RefHashes(blocks) == RefHashes(blocks[..last]) + [blocks[last].hash];
    }
  }

  lemma ThinnedTwice(a: ProposalBlock, b: ProposalBlock, c: ProposalBlock)
    requires Thinned(a, b) && Thinned(b, c)
    ensures Thinned(a, c)
  {
  }

  lemma SettledIsThinned(blocks: seq<ProposalBlock>, seed: Word, iter: Iteration)
    requires Iterates(iter) && Settle(blocks, seed, iter).Some?
    ensures var r := Settle(blocks, seed, iter).value;
            |r| == |blocks| && forall i :: 0 <= i < |r| ==> Thinned(blocks[i], r[i])
  {
  }

  /** The whole of `resolve` is exclusive and lossless: whenever it ends, a transaction
      is in one of its blocks exactly if some candidate had it, and never in two. */
  lemma ResolveSettlesAll(
    proposals: seq<ProposalBlock>, lastRound: Option<nat>, seed: Word, trace: Trace, iter: Iteration, d: Digest)
    requires Iterates(iter) && DistinctBlocks(proposals)
    requires Settle(Candidates(proposals, lastRound, trace), seed, iter).Some?
    ensures var curr := Candidates(proposals, lastRound, trace);
            var r := Settle(curr, seed, iter).value;
            && |r| == |curr|
            && ((exists i :: 0 <= i < |curr| && d in curr[i].txns) <==> (exists i :: 0 <= i < |r| && d in r[i].txns))
            && (forall i, j | 0 <= i < j < |r| :: d !in r[i].txns || d !in r[j].txns)
  {
    CandidatesDistinct(proposals, lastRound, trace);
    SettledExactly(Candidates(proposals, lastRound, trace), seed, iter, d);
  }

  /** Block `w` keeps its entry in the election map and contains all of `ds`. */
  ghost predicate RunsFor(blocks: seq<ProposalBlock>, ds: seq<Digest>, w: nat)
    requires w < |blocks|
  {
    KeepsEntry(blocks, w) && forall d <- ds :: d in blocks[w].txns
  }

  lemma BallotRuns(blocks: seq<ProposalBlock>, ds: seq<Digest>, w: nat)
    requires DistinctBlocks(blocks) && w < |blocks| && forall d <- ds :: d in ConflictsOf(blocks)
    ensures InAll(ConflictsOf(blocks), BallotOf(blocks[w]), ds) <==> forall d <- ds :: d in blocks[w].txns
  {
    forall d <- ds ensures BallotOf(blocks[w]) in ConflictsOf(blocks)[d].proposers <==> d in blocks[w].txns {
      ProposedIt(blocks, w, d);
    }
  }

  /** Who gets a conflicted transaction: of all blocks that contain it and every conflicted
      transaction visited before it, and are their claims' last, exactly the one whose
      claim has the lowest election result. */
  lemma LowestTakesIt(blocks: seq<ProposalBlock>, seed: Word, iter: Iteration, i: nat) returns (w: nat)
    requires Iterates(iter) && DistinctBlocks(blocks) && Settle(blocks, seed, iter).Some?
    requires i < |iter(ConflictsOf(blocks).Keys)|
    ensures var order, r := iter(ConflictsOf(blocks).Keys), Settle(blocks, seed, iter).value;
            && w < |blocks| && RunsFor(blocks, order[..i + 1], w)
            && (forall v: nat | v < |blocks| && RunsFor(blocks, order[..i + 1], v) ::
                  !Less(Xor(blocks[v].from.hash, seed), Xor(blocks[w].from.hash, seed)))
            && (forall b: nat | b < |blocks| :: order[i] in r[b].txns <==> b == w)
  {
    var all, e := ConflictsOf(blocks), ElectionOf(ProposersOf(blocks), seed);
    var order := iter(all.Keys);
    assert Enumerates(order, all.Keys);
    var k := LowestWins(all, e, order, i);
    w := EntryHasBlock(blocks, seed, k);
    BallotRuns(blocks, order[..i + 1], w);
    LowestAmongBlocks(blocks, seed, order[..i + 1], k, w);
    WinnerKeepsIt(blocks, AppendWinners(all, e, order).value, order[i], w);
  }

  lemma LowestAmongBlocks(blocks: seq<ProposalBlock>, seed: Word, ds: seq<Digest>, k: U256, w: nat)
    requires DistinctBlocks(blocks) && w < |blocks| && forall d <- ds :: d in ConflictsOf(blocks)
    requires LowestOfAll(ConflictsOf(blocks), ElectionOf(ProposersOf(blocks), seed), ds, k)
    requires k == Xor(blocks[w].from.hash, seed)
    ensures forall v: nat | v < |blocks| && RunsFor(blocks, ds, v) ::
              !Less(Xor(blocks[v].from.hash, seed), Xor(blocks[w].from.hash, seed))
  {
    forall v: nat | v < |blocks| && RunsFor(blocks, ds, v)
      ensures !Less(Xor(blocks[v].from.hash, seed), Xor(blocks[w].from.hash, seed))
    {
      BallotRuns(blocks, ds, v);
      BlockHasEntry(blocks, seed, v);
    }
  }

  lemma WinnerKeepsIt(blocks: seq<ProposalBlock>, won: Identified, d: Digest, w: nat)
    requires DistinctBlocks(blocks) && w < |blocks| && d in won && won[d].winner == Some(blocks[w].hash)
    requires d in blocks[w].txns
    ensures forall b: nat | b < |blocks| :: d in ResolvedBlock(blocks[b], won).txns <==> b == w
  {
    forall b: nat | b < |blocks| ensures blocks[b].hash == blocks[w].hash <==> b == w { }
  }

  lemma SettledExactly(curr: seq<ProposalBlock>, seed: Word, iter: Iteration, d: Digest)
    requires Iterates(iter) && DistinctBlocks(curr) && Settle(curr, seed, iter).Some?
    ensures var r := Settle(curr, seed, iter).value;
            && |r| == |curr|
            && ((exists i :: 0 <= i < |curr| && d in curr[i].txns) <==> (exists i :: 0 <= i < |r| && d in r[i].txns))
            && (forall i, j | 0 <= i < j < |r| :: d !in r[i].txns || d !in r[j].txns)
  {
    var conflicts := ConflictsOf(curr);
    ExclusiveAndLossless(curr, ElectionOf(ProposersOf(curr), seed), iter(conflicts.Keys), d);
  }

  /** No resolved late block holds a recorded transaction: what was confirmed is not mined again. */
  lemma NotMinedAgain(
    proposals: seq<ProposalBlock>, lastRound: nat, seed: Word, trace: Trace, iter: Iteration, i: nat, d: Digest)
    requires Iterates(iter) && Settle(Candidates(proposals, Some(lastRound), trace), seed, iter).Some?
    requires var r := Settle(Candidates(proposals, Some(lastRound), trace), seed, iter).value;
             i < |r| && r[i].round != lastRound && d in r[i].txns
    ensures !Recorded(proposals, lastRound, trace, d)
  {
    var curr := Candidates(proposals, Some(lastRound), trace);
    SettledIsThinned(curr, seed, iter);
    var p := LateKeepsExactly(proposals, lastRound, trace, curr[i]);
  }

  /** `resolve` never adds a transaction or changes anything else of a block: each
      block of its result is one of the proposals without some transactions, under
      its own hash. */
  lemma ResolvedFromProposals(
    proposals: seq<ProposalBlock>, lastRound: Option<nat>, seed: Word, trace: Trace, iter: Iteration)
    requires Iterates(iter) && DistinctBlocks(proposals)
    requires Settle(Candidates(proposals, lastRound, trace), seed, iter).Some?
    ensures var r := Settle(Candidates(proposals, lastRound, trace), seed, iter).value;
            && DistinctBlocks(r)
            && (forall i :: 0 <= i < |r| ==> exists p :: p in proposals && Thinned(p, r[i]))
  {
    var curr := Candidates(proposals, lastRound, trace);
    var r := Settle(curr, seed, iter).value;
    CandidatesDistinct(proposals, lastRound, trace);
    SettledIsThinned(curr, seed, iter);
    forall i | 0 <= i < |r| ensures exists p :: p in proposals && Thinned(p, r[i]) {
      var p := CandidateIsProposal(proposals, lastRound.value, trace, curr[i]);
      ThinnedTwice(p, curr[i], r[i]);
    }
  }
}
