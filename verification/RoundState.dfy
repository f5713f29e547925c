/** Applying a round to the stored state (`state_manager/manager.rs`). */
module RoundState {
  import opened Options
  import opened Orders
  import opened Elections
  import opened Blocks
  import opened Accounts
  import opened Batch
  import opened RoundUpdates
  import opened Transfers

  // ---- Filtering the round's proposals ------------------------------------

  /** A proposal the convergence block does not list is left as it is. */
  function FilterBlock(b: ProposalBlock, c: ConvergenceBlock): ProposalBlock {
    if b.hash in c.txns then Keeping(b, c.txns[b.hash]) else b
  }

  function FilterAll(blocks: seq<ProposalBlock>, c: ConvergenceBlock): (r: seq<ProposalBlock>)
    ensures |r| == |blocks| && forall i :: 0 <= i < |r| ==> r[i] == FilterBlock(blocks[i], c)
  {
    seq(|blocks|, i requires 0 <= i < |blocks| => FilterBlock(blocks[i], c))
  }

  class RoundBlocks {
    const convergence: ConvergenceBlock
    var proposals: seq<ProposalBlock>

    constructor (convergence: ConvergenceBlock, proposals: seq<ProposalBlock>)
      ensures this.convergence == convergence && this.proposals == proposals
    {
      this.convergence, this.proposals := convergence, proposals;
    }

    /** `get_update_list` filters the proposals in place, so that its caller goes on
        with the filtered ones, and collects their updates. */
    method GetUpdateList() returns (r: Option<set<StateUpdate>>)
      modifies this
      ensures proposals == FilterAll(old(proposals), convergence)
      ensures r.Some? <==> NoPanic(proposals)
      ensures r.Some? ==> r.value == RoundUpdatesOf(proposals)
    {
      var i := 0;
      while i < |proposals|
        invariant 0 <= i <= |proposals| == |old(proposals)|
        invariant forall k :: 0 <= k < i ==> proposals[k] == FilterBlock(old(proposals)[k], convergence)
        invariant forall k :: i <= k < |proposals| ==> proposals[k] == old(proposals)[k]
      {
        proposals := proposals[i := FilterBlock(proposals[i], convergence)];
        i := i + 1;
      }
      r := CollectUpdates(proposals);
    }
  }

  lemma MoreUpdatesOf(blocks: seq<ProposalBlock>, b: ProposalBlock)
    requires NoPanic(blocks) && !BlockPanics(b)
    ensures NoPanic(blocks + [b]) && RoundUpdatesOf(blocks + [b]) == RoundUpdatesOf(blocks) + BlockUpdates(b)
  {
  }

  method CollectUpdates(blocks: seq<ProposalBlock>) returns (r: Option<set<StateUpdate>>)
    ensures r.Some? <==> NoPanic(blocks)
    ensures r.Some? ==> r.value == RoundUpdatesOf(blocks)
  {
    var updates: set<StateUpdate> := {};
    for i := 0 to |blocks|
      invariant NoPanic(blocks[..i]) && updates == RoundUpdatesOf(blocks[..i])
    {
      var subset := FromBlock(blocks[i]);
      if subset.None? {
        assert blocks[i] in blocks;
        return None;
      }
      MoreUpdatesOf(blocks[..i], blocks[i]);
      assert blocks[..i + 1] == blocks[..i] + [blocks[i]];
      updates := updates + subset.value;
    }
    assert blocks[..|blocks|] == blocks;
    r := Some(updates);
  }

  // ---- Writing the state --------------------------------------------------

  /** An update of a missing account, or a failing one, changes nothing. */
  function UpdatedAccount(a: AccountState, updates: seq<UpdateArgs>): AccountState {
    if updates == [] then a
    else
      var (b, ok) := ApplyUpdate(a, Consolidated(updates));
      if ok then b else a
  }

  function UpdatedAccounts(accounts: map<Address, AccountState>, order: seq<UpdateArgs>): map<Address, AccountState> {
    map a | a in accounts :: UpdatedAccount(accounts[a], Of(order, a))
  }

  function Ids(ts: set<Txn>): set<Digest> {
    set t | t in ts :: t.id
  }

  /** The transactions are stored under their digests and nothing else changes. */
  ghost predicate Stored(before: map<Digest, Txn>, after: map<Digest, Txn>, ts: set<Txn>) {
    && after.Keys == before.Keys + Ids(ts)
    && (forall d <- after :: if d in Ids(ts) then after[d] in ts && after[d].id == d else after[d] == before[d])
  }

  /** The claims of the blocks, with their keys. */
  function ClaimsOf(blocks: seq<ProposalBlock>): set<(U256, Claim)> {
    set b, k | b in blocks && k in b.claims :: (k, b.claims[k])
  }

  function KeysOf(cs: set<(U256, Claim)>): set<U256> {
    set c | c in cs :: c.0
  }

  /** The claims are stored under their keys and nothing else changes. */
  ghost predicate StoredClaims(before: map<U256, Claim>, after: map<U256, Claim>, cs: set<(U256, Claim)>) {
    && after.Keys == before.Keys + KeysOf(cs)
    && (forall k <- after :: if k in KeysOf(cs) then (k, after[k]) in cs else after[k] == before[k])
  }

  /** After the claims of some blocks have been stored: each of their keys holds the claim
      one of them has under it, and every other key is as before. */
  lemma ClaimsStored(before: map<U256, Claim>, after: map<U256, Claim>, blocks: seq<ProposalBlock>, k: U256)
    requires StoredClaims(before, after, ClaimsOf(blocks))
    ensures var given := exists b :: b in blocks && k in b.claims;
            && (k in after <==> k in before || given)
            && (given ==> exists b :: b in blocks && k in b.claims && after[k] == b.claims[k])
            && (!given && k in before ==> after[k] == before[k])
  {
    if b :| b in blocks && k in b.claims {
      assert (k, b.claims[k]) in ClaimsOf(blocks);
      assert k in KeysOf(ClaimsOf(blocks));
    }
  }

  /** The same of the transactions, which are stored under their own digests. */
  lemma TxnsStored(before: map<Digest, Txn>, after: map<Digest, Txn>, blocks: seq<ProposalBlock>, k: Digest)
    requires Stored(before, after, TxnsOf(blocks))
    ensures var given := exists b, d :: b in blocks && d in b.txns && b.txns[d].id == k;
            && (k in after <==> k in before || given)
            && (given ==> exists b, d :: b in blocks && d in b.txns && after[k] == b.txns[d] && b.txns[d].id == k)
            && (!given && k in before ==> after[k] == before[k])
  {
    if b, d :| b in blocks && d in b.txns && b.txns[d].id == k {
      assert b.txns[d] in TxnsOf(blocks);
      assert k in Ids(TxnsOf(blocks));
    }
  }

  /** A proposal keeps exactly the transactions the convergence block lists under its hash,
      and all of them if it is not listed there; nothing else of it changes. */
  lemma FilterExactly(b: ProposalBlock, c: ConvergenceBlock, d: Digest)
    ensures Thinned(b, FilterBlock(b, c))
    ensures d in FilterBlock(b, c).txns <==> d in b.txns && (b.hash in c.txns ==> d in c.txns[b.hash])
  {
  }

  type ArgsOrder = set<UpdateArgs> -> seq<UpdateArgs>

  ghost predicate OrdersArgs(iter: ArgsOrder) {
    forall us :: Enumerates(iter(us), us)
  }

  datatype Status = Updated | NotFound | Panicked

  class StateManager {
    var accounts: map<Address, AccountState>
    var transactions: map<Digest, Txn>
    var claims: map<U256, Claim>

    method UpdateTxnTrie(proposals: seq<ProposalBlock>)
      modifies this`transactions
      ensures Stored(old(transactions), transactions, TxnsOf(proposals))
    {
      var todo := TxnsOf(proposals);
      ghost var done: set<Txn> := {};
      while todo != {}
        invariant done + todo == TxnsOf(proposals)
        invariant Stored(old(transactions), transactions, done)
        decreases todo
      {
        var t :| t in todo;
        transactions := transactions[t.id := t];
        assert Ids(done + {t}) == Ids(done) + {t.id};
        todo, done := todo - {t}, done + {t};
      }
    }

    method UpdateClaimStore(proposals: seq<ProposalBlock>)
      modifies this`claims
      ensures StoredClaims(old(claims), claims, ClaimsOf(proposals))
    {
      var todo := ClaimsOf(proposals);
      ghost var done: set<(U256, Claim)> := {};
      while todo != {}
        invariant done + todo == ClaimsOf(proposals)
        invariant StoredClaims(old(claims), claims, done)
        decreases todo
      {
        var c :| c in todo;
        claims := claims[c.0 := c.1];
        assert KeysOf(done + {c}) == KeysOf(done) + {c.0};
        todo, done := todo - {c}, done + {c};
      }
    }

    /** The loop of `update_state` over the consolidated updates. */
    method ApplyUpdates(updates: map<Address, UpdateArgs>)
      requires forall a <- updates :: updates[a].address == a
      modifies this`accounts
      ensures accounts.Keys == old(accounts).Keys
      ensures forall a <- accounts :: accounts[a] ==
                if a !in updates then old(accounts)[a]
                else var (b, ok) := ApplyUpdate(old(accounts)[a], updates[a]); if ok then b else old(accounts)[a]
    {
      var todo := updates.Keys;
      while todo != {}
        invariant todo <= updates.Keys && accounts.Keys == old(accounts).Keys
        invariant forall a <- accounts :: accounts[a] ==
                    if a !in updates || a in todo then old(accounts)[a]
                    else var (b, ok) := ApplyUpdate(old(accounts)[a], updates[a]); if ok then b else old(accounts)[a]
        decreases todo
      {
        var a :| a in todo;
        var args := updates[a];
        if args.address in accounts {
          var (b, ok) := ApplyUpdate(accounts[args.address], args);
          if ok {
            accounts := accounts[args.address := b];
          }
        }
        todo := todo - {a};
      }
    }

    method ApplyConsolidated(order: seq<UpdateArgs>)
      modifies this`accounts
      ensures accounts == UpdatedAccounts(old(accounts), order)
    {
      var consolidated := ConsolidateUpdateArgs(order);
      ApplyUpdates(consolidated);
    }

    method StoreRound(proposals: seq<ProposalBlock>)
      modifies this`transactions, this`claims
      ensures Stored(old(transactions), transactions, TxnsOf(proposals))
      ensures StoredClaims(old(claims), claims, ClaimsOf(proposals))
    {
      UpdateTxnTrie(proposals);
      UpdateClaimStore(proposals);
    }

    /** `update_state` for the round found in the DAG, if any; the updates are met in
        an arbitrary order. */
    method UpdateState(round: RoundBlocks?, iter: ArgsOrder) returns (status: Status)
      requires OrdersArgs(iter)
      modifies this, round
      ensures status == NotFound <==> round == null
      ensures round != null ==> round.proposals == FilterAll(old(round.proposals), round.convergence)
      ensures status == Panicked <==> round != null && !NoPanic(round.proposals)
      ensures status != Updated ==>
                accounts == old(accounts) && transactions == old(transactions) && claims == old(claims)
      ensures status == Updated ==> accounts == UpdatedAccounts(old(accounts), iter(RoundArgs(round.proposals)))
      ensures status == Updated ==> Stored(old(transactions), transactions, TxnsOf(round.proposals))
      ensures status == Updated ==> StoredClaims(old(claims), claims, ClaimsOf(round.proposals))
    {
      if round == null {
        return NotFound;
      }
      var updates := round.GetUpdateList();
      if updates.None? {
        return Panicked;
      }
      var args := set u | u in updates.value :: ToArgs(u);
      ApplyConsolidated(iter(args));
      StoreRound(round.proposals);
      status := Updated;
    }
  }
}
