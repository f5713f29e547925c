/** Conflict resolution between proposal blocks (`miner_impl.rs`). */
module Conflicts {
  import opened Options
  import opened Orders
  import opened Elections
  import opened Blocks

  type Ballot = (Claim, RefHash)

  datatype Conflict = Conflict(txnId: Digest, proposers: set<Ballot>, winner: Option<RefHash>)

  type Identified = map<Digest, Conflict>

  // ---- Who proposed a transaction -----------------------------------------

  function BallotOf(b: ProposalBlock): Ballot {
    (b.from, b.hash)
  }

  /** Everybody among the blocks who proposed the transaction. */
  function Proposers(blocks: seq<ProposalBlock>, d: Digest): set<Ballot> {
    set b | b in blocks && d in b.txns :: BallotOf(b)
  }

  function Digests(blocks: seq<ProposalBlock>): set<Digest> {
    set b, d | b in blocks && d in b.txns :: d
  }

  /** Every transaction with everybody who proposed it. */
  function Table(blocks: seq<ProposalBlock>): Identified {
    map d | d in Digests(blocks) :: Conflict(d, Proposers(blocks, d), None)
  }

  /** The conflicts among the blocks: the transactions with more than one proposer. */
  function ConflictsOf(blocks: seq<ProposalBlock>): Identified {
    map d | d in Digests(blocks) && |Proposers(blocks, d)| > 1 :: Conflict(d, Proposers(blocks, d), None)
  }

  /** The entry of `all` for `d` after `ballot` has proposed it as well. */
  function Joined(all: Identified, d: Digest, ballot: Ballot): Conflict {
    if d in all then all[d].(proposers := all[d].proposers + {ballot}) else Conflict(d, {ballot}, None)
  }

  function Merge(all: Identified, ballot: Ballot, ids: set<Digest>): Identified {
    map d | d in all.Keys + ids :: if d in ids then Joined(all, d, ballot) else all[d]
  }

  lemma MoreProposers(blocks: seq<ProposalBlock>, b: ProposalBlock, d: Digest)
    ensures Proposers(blocks + [b], d) ==
            (if d in b.txns then Proposers(blocks, d) + {BallotOf(b)} else Proposers(blocks, d))
  {
  }

  lemma MoreDigests(blocks: seq<ProposalBlock>, b: ProposalBlock)
    ensures Digests(blocks + [b]) == Digests(blocks) + b.txns.Keys
  {
  }

  lemma UnknownDigest(blocks: seq<ProposalBlock>, d: Digest)
    ensures d in Digests(blocks) <==> Proposers(blocks, d) != {}
  {
    if d in Digests(blocks) {
      var b :| b in blocks && d in b.txns;
      assert BallotOf(b) in Proposers(blocks, d);
    }
  }

  lemma MergeIsTable(blocks: seq<ProposalBlock>, b: ProposalBlock)
    ensures Merge(Table(blocks), BallotOf(b), b.txns.Keys) == Table(blocks + [b])
  {
    var m, t := Merge(Table(blocks), BallotOf(b), b.txns.Keys), Table(blocks + [b]);
    MoreDigests(blocks, b);
    assert m.Keys == t.Keys;
    forall d <- t ensures m[d] == t[d] {
      MergeAt(blocks, b, d);
    }
  }

  lemma MergeAt(blocks: seq<ProposalBlock>, b: ProposalBlock, d: Digest)
    requires d in Digests(blocks) + b.txns.Keys
    ensures d in Table(blocks + [b])
    ensures Merge(Table(blocks), BallotOf(b), b.txns.Keys)[d] == Table(blocks + [b])[d]
  {
    MoreDigests(blocks, b);
    MoreProposers(blocks, b, d);
    if d in b.txns {
      JoinedProposers(blocks, b, d);
    }
  }

  lemma JoinedProposers(blocks: seq<ProposalBlock>, b: ProposalBlock, d: Digest)
    ensures Joined(Table(blocks), d, BallotOf(b)) == Conflict(d, Proposers(blocks, d) + {BallotOf(b)}, None)
  {
    UnknownDigest(blocks, d);
  }

  /** The inner loop of `identify`: one block proposes all its transactions. */
  method RecordBlock(all: Identified, block: ProposalBlock) returns (r: Identified)
    ensures r == Merge(all, BallotOf(block), block.txns.Keys)
  {
    r := all;
    var todo := block.txns.Keys;
    while todo != {}
      invariant todo <= block.txns.Keys
      invariant r == Merge(all, BallotOf(block), block.txns.Keys - todo)
      decreases todo
    {
      var id :| id in todo;
      r := r[id := Joined(r, id, BallotOf(block))];
      todo := todo - {id};
    }
  }

  /** `identify`: tabulates the proposers of every transaction and keeps the conflicts. */
  method Identify(proposals: seq<ProposalBlock>) returns (conflicts: Identified)
    ensures conflicts == ConflictsOf(proposals)
  {
    var all: Identified := map[];
    for i := 0 to |proposals|
      invariant all == Table(proposals[..i])
    {
      MergeIsTable(proposals[..i], proposals[i]);
      assert proposals[..i + 1] == proposals[..i] + [proposals[i]];
      all := RecordBlock(all, proposals[i]);
    }
    assert proposals[..|proposals|] == proposals;
    conflicts := map d | d in all && |all[d].proposers| > 1 :: all[d];
  }

  // ---- Electing winners ---------------------------------------------------

  type Election = map<U256, Ballot>

  /** `get_election_results`: proposers with the same claim hash share one entry. */
  function ElectionOf(proposers: seq<Ballot>, seed: Word): Election {
    Collect(Votes(proposers, seed))
  }

  function Votes(proposers: seq<Ballot>, seed: Word): (votes: seq<(U256, Ballot)>)
    ensures |votes| == |proposers|
    ensures forall i :: 0 <= i < |votes| ==> votes[i] == (Xor(proposers[i].0.hash, seed), proposers[i])
  {
    seq(|proposers|, i requires 0 <= i < |proposers| => (Xor(proposers[i].0.hash, seed), proposers[i]))
  }

  function Retain(election: Election, proposers: set<Ballot>): Election {
    map k | k in election && election[k] in proposers :: election[k]
  }

  function FirstHash(election: Election): RefHash
    requires election != map[]
  {
    election[Least(election.Keys)].1
  }

  /** `append_winner`, visiting the conflicts in the given order.  The one election
      map shrinks from conflict to conflict; once it is empty the source loops for
      ever looking for a first entry, which is `None` here. */
  function AppendWinners(conflicts: Identified, election: Election, order: seq<Digest>): Option<Identified>
    requires forall d <- order :: d in conflicts
    decreases |order|
  {
    if order == [] then Some(conflicts)
    else
      var d := order[0];
      var left := Retain(election, conflicts[d].proposers);
      if left == map[] then None
      else AppendWinners(conflicts[d := conflicts[d].(winner := Some(FirstHash(left)))], left, order[1..])
  }

  method AppendWinner(conflicts: Identified, election: Election, order: seq<Digest>) returns (r: Option<Identified>)
    requires forall d <- order :: d in conflicts
    ensures r == AppendWinners(conflicts, election, order)
  {
    var current, left := conflicts, election;
    for i := 0 to |order|
      invariant forall d <- order :: d in current
      invariant AppendWinners(conflicts, election, order) == AppendWinners(current, left, order[i..])
    {
      var d := order[i];
      left := Retain(left, current[d].proposers);
      if left == map[] {
        return None;
      }
      assert order[i..][1..] == order[i + 1..];
      current := current[d := current[d].(winner := Some(FirstHash(left)))];
    }
    r := Some(current);
  }

  /** The ballot proposed every transaction of `ds`. */
  ghost predicate InAll(conflicts: Identified, b: Ballot, ds: seq<Digest>)
    requires forall d <- ds :: d in conflicts
  {
    forall i :: 0 <= i < |ds| ==> b in conflicts[ds[i]].proposers
  }

  ghost predicate SameProposers(a: Identified, b: Identified) {
    a.Keys == b.Keys && forall d <- a :: b[d] == a[d].(winner := b[d].winner)
  }

  lemma {:induction false} WinnersExist(conflicts: Identified, election: Election, order: seq<Digest>)
    requires forall d <- order :: d in conflicts
    ensures AppendWinners(conflicts, election, order).Some? <==>
            order == [] || exists k :: k in election && InAll(conflicts, election[k], order)
    decreases |order|
  {
    if order != [] {
      var d := order[0];
      var left := Retain(election, conflicts[d].proposers);
      if left != map[] {
        var next := conflicts[d := conflicts[d].(winner := Some(FirstHash(left)))];
        WinnersExist(next, left, order[1..]);
        forall k | k in left
          ensures InAll(next, left[k], order[1..]) <==> InAll(conflicts, election[k], order)
        {
          assert forall i :: 0 < i < |order| ==> order[i] == order[1..][i - 1];
        }
        if order[1..] == [] {
          var k :| k in left;
          assert InAll(conflicts, election[k], order);
        }
      }
      forall k | k in election && InAll(conflicts, election[k], order) ensures k in left { }
    }
  }

  ghost predicate ProposedAll(conflicts: Identified, b: Ballot) {
    forall d <- conflicts :: b in conflicts[d].proposers
  }

  /** `append_winner` ends, for every iteration order of the conflict map, exactly
      when there is no conflict or one ballot of the election map is a proposer of
      every conflicted transaction. */
  lemma AppendWinnerEndsExactly(conflicts: Identified, election: Election, order: seq<Digest>)
    requires Enumerates(order, conflicts.Keys)
    ensures AppendWinners(conflicts, election, order).Some? <==>
            conflicts == map[] || exists k :: k in election && ProposedAll(conflicts, election[k])
  {
    WinnersExist(conflicts, election, order);
    assert order != [] ==> order[0] in order;
    if conflicts != map[] {
      var d :| d in conflicts;
      assert d in order;
    }
    forall k | k in election
      ensures InAll(conflicts, election[k], order) <==> ProposedAll(conflicts, election[k])
    {
      if InAll(conflicts, election[k], order) {
        forall d <- conflicts ensures election[k] in conflicts[d].proposers {
          assert d in order;
        }
      }
    }
  }

  /** The winner of each visited conflict is one of its own proposers. */
  ghost predicate WonByProposer(c: Conflict) {
    c.winner.Some? && exists b :: b in c.proposers && b.1 == c.winner.value
  }

  lemma {:induction false} WinnersAreProposers(conflicts: Identified, election: Election, order: seq<Digest>)
    requires forall d <- order :: d in conflicts
    requires AppendWinners(conflicts, election, order).Some?
    ensures var r := AppendWinners(conflicts, election, order).value;
            && SameProposers(conflicts, r)
            && (forall d <- conflicts :: d in order || WonByProposer(conflicts[d]) ==> WonByProposer(r[d]))
    decreases |order|
  {
    if order != [] {
      var d := order[0];
      var left := Retain(election, conflicts[d].proposers);
      var next := conflicts[d := conflicts[d].(winner := Some(FirstHash(left)))];
      assert left[Least(left.Keys)] in conflicts[d].proposers;
      assert WonByProposer(next[d]);
      WinnersAreProposers(next, left, order[1..]);
      forall e | e in order ensures e == d || e in order[1..] { }
    }
  }

  /** The entry with the lowest result among those whose ballots proposed all of `ds`. */
  ghost predicate LowestOfAll(conflicts: Identified, election: Election, ds: seq<Digest>, k: U256)
    requires forall d <- ds :: d in conflicts
  {
    && k in election && InAll(conflicts, election[k], ds)
    && (forall k' <- election :: InAll(conflicts, election[k'], ds) ==> !Less(k', k))
  }

  lemma {:induction false} OthersKept(conflicts: Identified, election: Election, order: seq<Digest>, d: Digest)
    requires (forall e <- order :: e in conflicts) && d in conflicts && d !in order
    requires AppendWinners(conflicts, election, order).Some?
    ensures var r := AppendWinners(conflicts, election, order).value; d in r && r[d] == conflicts[d]
    decreases |order|
  {
    if order != [] {
      var left := Retain(election, conflicts[order[0]].proposers);
      var next := conflicts[order[0] := conflicts[order[0]].(winner := Some(FirstHash(left)))];
      OthersKept(next, left, order[1..], d);
    }
  }

  lemma FirstIsLowest(conflicts: Identified, election: Election, d: Digest)
    requires d in conflicts && Retain(election, conflicts[d].proposers) != map[]
    ensures var left := Retain(election, conflicts[d].proposers);
            LowestOfAll(conflicts, election, [d], Least(left.Keys)) && FirstHash(left) == election[Least(left.Keys)].1
  {
    var left := Retain(election, conflicts[d].proposers);
    forall k | k in election && InAll(conflicts, election[k], [d]) ensures k in left {
      assert [d][0] == d;
    }
  }

  lemma LowestOfMore(conflicts: Identified, next: Identified, election: Election, d: Digest, ds: seq<Digest>, k: U256)
    requires d in conflicts && (forall e <- ds :: e in conflicts) && SameProposers(conflicts, next)
    requires LowestOfAll(next, Retain(election, conflicts[d].proposers), ds, k)
    ensures LowestOfAll(conflicts, election, [d] + ds, k)
  {
    forall b ensures InAll(conflicts, b, [d] + ds) <==> b in conflicts[d].proposers && InAll(next, b, ds) {
      AllOfMore(conflicts, next, b, d, ds);
    }
  }

  lemma AllOfMore(conflicts: Identified, next: Identified, b: Ballot, d: Digest, ds: seq<Digest>)
    requires d in conflicts && (forall e <- ds :: e in conflicts) && SameProposers(conflicts, next)
    ensures InAll(conflicts, b, [d] + ds) <==> b in conflicts[d].proposers && InAll(next, b, ds)
  {
    var all := [d] + ds;
    assert all[0] == d && forall i :: 0 <= i < |ds| ==> all[i + 1] == ds[i];
  }

  /** The winner of the conflict visited at position `i` is the ballot with the lowest
      result among the ballots of the election map that proposed it and every
      transaction visited before it. */
  lemma {:induction false} LowestWins(conflicts: Identified, election: Election, order: seq<Digest>, i: nat)
    returns (k: U256)
    requires (forall d <- order :: d in conflicts) && NoDuplicates(order) && i < |order|
    requires AppendWinners(conflicts, election, order).Some?
    ensures LowestOfAll(conflicts, election, order[..i + 1], k)
    ensures var r := AppendWinners(conflicts, election, order).value;
            order[i] in r && r[order[i]].winner == Some(election[k].1)
    decreases |order|
  {
    var d := order[0];
    var left := Retain(election, conflicts[d].proposers);
    var next := conflicts[d := conflicts[d].(winner := Some(FirstHash(left)))];
    if i == 0 {
      k := Least(left.Keys);
      FirstIsLowest(conflicts, election, d);
      assert order[..1] == [d];
      OthersKept(next, left, order[1..], d);
    } else {
      k := LowestWins(next, left, order[1..], i - 1);
      LowestOfMore(conflicts, next, election, d, order[1..][..i], k);
      assert order[..i + 1] == [d] + order[1..][..i];
    }
  }

  /** If all conflicts have the same proposers, all get the same winner: the ballot with
      the lowest result among those proposers, in whatever order they are visited. */
  lemma SharedProposersShareWinner(
    conflicts: Identified, election: Election, order: seq<Digest>, proposers: set<Ballot>) returns (k: U256)
    requires forall d <- conflicts :: conflicts[d].proposers == proposers
    requires Enumerates(order, conflicts.Keys) && exists k :: k in election && election[k] in proposers
    ensures k in election && election[k] in proposers
    ensures forall k' <- election :: election[k'] in proposers ==> !Less(k', k)
    ensures AppendWinners(conflicts, election, order).Some?
    ensures var r := AppendWinners(conflicts, election, order).value;
            r.Keys == conflicts.Keys && forall d <- r :: r[d].winner == Some(election[k].1)
  {
    var left := Retain(election, proposers);
    var some :| some in election && election[some] in proposers;
    assert some in left;
    k := Least(left.Keys);
    forall k' | k' in election && election[k'] in proposers ensures !Less(k', k) {
      assert k' in left;
    }
    SharedRetain(conflicts, election, order, proposers);
    forall d <- conflicts ensures d in order { }
  }

  lemma {:induction false} SharedRetain(
    conflicts: Identified, election: Election, order: seq<Digest>, proposers: set<Ballot>)
    requires forall d <- conflicts :: conflicts[d].proposers == proposers
    requires forall d <- order :: d in conflicts
    requires Retain(election, proposers) != map[]
    ensures AppendWinners(conflicts, election, order).Some?
    ensures var r := AppendWinners(conflicts, election, order).value;
            r.Keys == conflicts.Keys &&
            forall d <- conflicts :: r[d].winner ==
              if d in order then Some(FirstHash(Retain(election, proposers))) else conflicts[d].winner
    decreases |order|
  {
    if order != [] {
      var d := order[0];
      var left := Retain(election, proposers);
      assert Retain(left, proposers) == left;
      var next := conflicts[d := conflicts[d].(winner := Some(FirstHash(left)))];
      SharedRetain(next, left, order[1..], proposers);
      forall e ensures e in order <==> e == d || e in order[1..] { }
    }
  }

  // ---- What a conflict is -------------------------------------------------

  /** A transaction is conflicted exactly if two blocks contain it. */
  lemma ConflictedExactly(blocks: seq<ProposalBlock>, d: Digest)
    requires DistinctBlocks(blocks)
    ensures d in ConflictsOf(blocks) <==>
            exists i, j :: 0 <= i < j < |blocks| && d in blocks[i].txns && d in blocks[j].txns
  {
    if i, j :| 0 <= i < j < |blocks| && d in blocks[i].txns && d in blocks[j].txns {
      TwoProposersConflict(blocks, d, i, j);
    } else if d in ConflictsOf(blocks) {
      OneProposer(blocks, d);
      assert false;
    }
  }

  lemma OneProposer(blocks: seq<ProposalBlock>, d: Digest)
    requires forall i, j | 0 <= i < j < |blocks| :: d !in blocks[i].txns || d !in blocks[j].txns
    ensures |Proposers(blocks, d)| <= 1
  {
    if b :| b in blocks && d in b.txns {
      forall c | c in blocks && d in c.txns ensures c == b { }
      SubsetSize(Proposers(blocks, d), {BallotOf(b)});
    } else {
      assert Proposers(blocks, d) == {};
    }
  }

  // ---- Removing the losers' transactions ----------------------------------

  predicate Loses(b: ProposalBlock, conflicts: Identified, d: Digest) {
    d in conflicts && conflicts[d].winner != Some(b.hash)
  }

  function ResolvedBlock(b: ProposalBlock, conflicts: Identified): ProposalBlock {
    b.(txns := map d | d in b.txns && !Loses(b, conflicts, d) :: b.txns[d])
  }

  function ResolvedBlocks(blocks: seq<ProposalBlock>, conflicts: Identified): (r: seq<ProposalBlock>)
    ensures |r| == |blocks| && forall i :: 0 <= i < |r| ==> r[i] == ResolvedBlock(blocks[i], conflicts)
  {
    seq(|blocks|, i requires 0 <= i < |blocks| => ResolvedBlock(blocks[i], conflicts))
  }

  /** `resolve_current` works on the vector in place. */
  method ResolveCurrent(current: array<ProposalBlock>, conflicts: Identified)
    modifies current
    ensures current[..] == ResolvedBlocks(old(current[..]), conflicts)
  {
    for i := 0 to current.Length
      invariant forall k :: 0 <= k < i ==> current[k] == ResolvedBlock(old(current[k]), conflicts)
      invariant forall k :: i <= k < current.Length ==> current[k] == old(current[k])
    {
      var block := current[i];
      var removals := set d | d in conflicts && d in block.txns && conflicts[d].winner != Some(block.hash);
      current[i] := block.(txns := map d | d in block.txns && d !in removals :: block.txns[d]);
    }
  }

  /** Every conflict among the blocks has been won by one of its proposers. */
  ghost predicate Settled(blocks: seq<ProposalBlock>, won: Identified) {
    SameProposers(ConflictsOf(blocks), won) && forall d <- won :: WonByProposer(won[d])
  }

  lemma SettledKeeps(blocks: seq<ProposalBlock>, won: Identified, d: Digest, i: nat)
    requires Settled(blocks, won) && i < |blocks| && d in blocks[i].txns
    ensures exists k :: 0 <= k < |blocks| && d in ResolvedBlock(blocks[k], won).txns
  {
    if d in won {
      var b :| b in won[d].proposers && b.1 == won[d].winner.value;
      var w :| w in blocks && d in w.txns && BallotOf(w) == b;
      var k :| 0 <= k < |blocks| && blocks[k] == w;
      assert d in ResolvedBlock(blocks[k], won).txns;
    } else {
      assert d in ResolvedBlock(blocks[i], won).txns;
    }
  }

  lemma SettledExcludes(blocks: seq<ProposalBlock>, won: Identified, d: Digest, i: nat, j: nat)
    requires DistinctBlocks(blocks) && Settled(blocks, won) && i < j < |blocks|
    ensures d !in ResolvedBlock(blocks[i], won).txns || d !in ResolvedBlock(blocks[j], won).txns
  {
    if d in blocks[i].txns && d in blocks[j].txns {
      TwoProposersConflict(blocks, d, i, j);
    }
  }

  /** Resolution is exclusive and lossless: whenever `append_winner` ends, every
      transaction some block proposed is afterwards in exactly one block; that block
      proposed it, unchanged; and no block has a transaction it did not have. */
  lemma ExclusiveAndLossless(blocks: seq<ProposalBlock>, election: Election, order: seq<Digest>, d: Digest)
    requires DistinctBlocks(blocks)
    requires Enumerates(order, ConflictsOf(blocks).Keys)
    requires AppendWinners(ConflictsOf(blocks), election, order).Some?
    ensures var r := ResolvedBlocks(blocks, AppendWinners(ConflictsOf(blocks), election, order).value);
            && (forall i :: 0 <= i < |blocks| ==> Thinned(blocks[i], r[i]))
            && ((exists i :: 0 <= i < |blocks| && d in blocks[i].txns) <==>
                (exists i :: 0 <= i < |r| && d in r[i].txns))
            && (forall i, j | 0 <= i < j < |r| :: d !in r[i].txns || d !in r[j].txns)
  {
    var won := AppendWinners(ConflictsOf(blocks), election, order).value;
    WinnersAreProposers(ConflictsOf(blocks), election, order);
    assert Settled(blocks, won);
    if i :| 0 <= i < |blocks| && d in blocks[i].txns {
      SettledKeeps(blocks, won, d, i);
    }
    forall i, j | 0 <= i < j < |blocks|
      ensures d !in ResolvedBlock(blocks[i], won).txns || d !in ResolvedBlock(blocks[j], won).txns
    {
      SettledExcludes(blocks, won, d, i, j);
    }
  }

  lemma TwoProposersConflict(blocks: seq<ProposalBlock>, d: Digest, i: nat, j: nat)
    requires DistinctBlocks(blocks) && i < j < |blocks|
    requires d in blocks[i].txns && d in blocks[j].txns
    ensures d in ConflictsOf(blocks)
  {
    var two := {BallotOf(blocks[i]), BallotOf(blocks[j])};
    assert two <= Proposers(blocks, d);
    SubsetSize(two, Proposers(blocks, d));
  }

  lemma {:induction false} SubsetSize<T>(a: set<T>, b: set<T>)
    requires a <= b
    ensures |a| <= |b|
  {
    if a != {} {
      var x :| x in a;
      SubsetSize(a - {x}, b - {x});
    }
  }
}
