/** From a round's transactions to account updates (`vrrbdb/types.rs`). */
module RoundUpdates {
  import opened Arithmetic
  import opened Options
  import opened Orders
  import opened Blocks
  import opened Accounts
  import opened Batch

  const DEFAULT_DIGEST: Digest := 0
  const DEFAULT_TOKEN: nat := 0

  datatype UpdateAccount = Sender | Receiver | ClaimStake | Fee | Reward

  datatype StateUpdate = StateUpdate(
    address: Address, token: Option<nat>, amount: u128, nonce: Option<u128>,
    storage: Option<nat>, code: Option<nat>, digest: Digest, updateAccount: UpdateAccount)

  /** `From<StateUpdate> for UpdateArgs`. */
  function ToArgs(u: StateUpdate): UpdateArgs {
    match u.updateAccount
    case Sender =>
      UpdateArgs(u.address, u.nonce, None, Some(u.amount), Some(u.storage), Some(u.code),
                 Some(NO_DIGESTS.(sent := {u.digest})))
    case Receiver =>
      UpdateArgs(u.address, u.nonce, Some(u.amount), None, Some(u.storage), Some(u.code),
                 Some(NO_DIGESTS.(recv := {u.digest})))
    case ClaimStake =>
      UpdateArgs(u.address, u.nonce, None, None, None, None, Some(NO_DIGESTS.(stake := {u.digest})))
    case Fee => UpdateArgs(u.address, u.nonce, Some(u.amount), None, None, None, None)
    case Reward => UpdateArgs(u.address, u.nonce, Some(u.amount), None, None, None, None)
  }

  /** An update's amount is a debit exactly for a sender and a credit exactly for a
      receiver, a fee or a reward; its digest goes where its kind says; only the two
      sides of a transaction write code and storage. */
  lemma ArgsByKind(u: StateUpdate)
    ensures var w, kind := ToArgs(u), u.updateAccount;
            && w.address == u.address && w.nonce == u.nonce
            && (kind == Sender <==> w.debits.Some?) && (w.debits.Some? ==> w.debits.value == u.amount)
            && (kind in {Receiver, Fee, Reward} <==> w.credits.Some?)
            && (w.credits.Some? ==> w.credits.value == u.amount)
            && (kind in {Sender, Receiver, ClaimStake} <==> w.digests.Some?)
            && (w.digests.Some? ==>
                  && (forall d :: d in w.digests.value.sent <==> kind == Sender && d == u.digest)
                  && (forall d :: d in w.digests.value.recv <==> kind == Receiver && d == u.digest)
                  && (forall d :: d in w.digests.value.stake <==> kind == ClaimStake && d == u.digest))
            && w.code == (if kind in {Sender, Receiver} then Some(u.code) else None)
            && w.storage == (if kind in {Sender, Receiver} then Some(u.storage) else None)
  {
  }

  // ---- One transaction ----------------------------------------------------

  function SenderUpdate(t: Txn): StateUpdate {
    StateUpdate(t.sender, Some(t.token), t.amount, Some(t.nonce), None, None, t.id, Sender)
  }

  function ReceiverUpdate(t: Txn): StateUpdate {
    StateUpdate(t.receiver, Some(t.token), t.amount, None, None, None, t.id, Receiver)
  }

  /** The validators that voted for the transaction. */
  function Approving(t: Txn): set<ValidatorKey> {
    if t.validators.None? then {} else set k | k in t.validators.value && t.validators.value[k]
  }

  /** Dividing the fee among no validators panics. */
  predicate FeePanics(t: Txn) {
    t.validators.Some? && Approving(t) == {}
  }

  function FeeUpdate(a: Address, token: Option<nat>, amount: u128): StateUpdate {
    StateUpdate(a, token, amount, None, None, None, DEFAULT_DIGEST, Fee)
  }

  function ValidatorFees(t: Txn): set<StateUpdate>
    requires !FeePanics(t)
  {
    if t.validators.None? then {} else FeesFor(Approving(t), t.validatorFeeShare / |Approving(t)|)
  }

  /** A fee for every validator that has an address; equal ones are one update. */
  function FeesFor(keys: set<ValidatorKey>, amount: u128): set<StateUpdate> {
    set k | k in keys && k.address.Some? :: FeeUpdate(k.address.value, None, amount)
  }

  lemma {:induction false} FewerFees(keys: set<ValidatorKey>, amount: u128)
    ensures |FeesFor(keys, amount)| <= |keys|
  {
    if keys != {} {
      var k :| k in keys;
      var rest := FeesFor(keys - {k}, amount);
      FewerFees(keys - {k}, amount);
      if k.address.Some? {
        assert FeesFor(keys, amount) == rest + {FeeUpdate(k.address.value, None, amount)};
      } else {
        assert FeesFor(keys, amount) == rest;
      }
    }
  }

  ghost function Amounts(us: set<StateUpdate>): nat {
    if us == {} then 0 else var u :| u in us; u.amount + Amounts(us - {u})
  }

  lemma {:induction false} SameAmounts(us: set<StateUpdate>, amount: u128)
    requires forall u <- us :: u.amount == amount
    ensures Amounts(us) == |us| * amount
  {
    if us != {} {
      var u :| u in us && Amounts(us) == u.amount + Amounts(us - {u});
      SameAmounts(us - {u}, amount);
    }
  }

  /** The validators together never get more than their share of the fee. */
  lemma FeesWithinShare(t: Txn)
    requires !FeePanics(t)
    ensures Amounts(ValidatorFees(t)) <= t.validatorFeeShare
  {
    if t.validators.Some? {
      var n := |Approving(t)|;
      var each := t.validatorFeeShare / n;
      FewerFees(Approving(t), each);
      SameAmounts(ValidatorFees(t), each);
      Scaled(|ValidatorFees(t)|, n, each);
    }
  }

  function TxnUpdates(t: Txn): set<StateUpdate>
    requires !FeePanics(t)
  {
    {SenderUpdate(t), ReceiverUpdate(t)} + ValidatorFees(t)
  }

  // ---- One block ----------------------------------------------------------

  ghost function ProposerFees(txns: map<Digest, Txn>): nat {
    if txns == map[] then 0 else var d :| d in txns; txns[d].proposerFeeShare + ProposerFees(txns - {d})
  }

  lemma {:induction false} ProposerFeesWithout(txns: map<Digest, Txn>, d: Digest)
    requires d in txns
    ensures ProposerFees(txns) == txns[d].proposerFeeShare + ProposerFees(txns - {d})
  {
    var e :| e in txns && ProposerFees(txns) == txns[e].proposerFeeShare + ProposerFees(txns - {e});
    if e != d {
      ProposerFeesWithout(txns - {e}, d);
      ProposerFeesWithout(txns - {d}, e);
      assert txns - {e} - {d} == txns - {d} - {e};
    }
  }

  predicate BlockPanics(b: ProposalBlock) {
    exists d :: d in b.txns && FeePanics(b.txns[d])
  }

  function TxnsUpdates(txns: map<Digest, Txn>): set<StateUpdate>
    requires forall d <- txns :: !FeePanics(txns[d])
  {
    set d, u | d in txns && u in TxnUpdates(txns[d]) :: u
  }

  ghost function BlockUpdates(b: ProposalBlock): set<StateUpdate>
    requires !BlockPanics(b)
  {
    TxnsUpdates(b.txns) + {FeeUpdate(b.from.address, Some(DEFAULT_TOKEN), ProposerFees(b.txns) % U128)}
  }

  lemma MoreUpdates(done: map<Digest, Txn>, d: Digest, t: Txn)
    requires d !in done && !FeePanics(t) && forall e <- done :: !FeePanics(done[e])
    ensures TxnsUpdates(done[d := t]) == TxnsUpdates(done) + TxnUpdates(t)
  {
    var more := done[d := t];
    forall u ensures u in TxnsUpdates(more) <==> u in TxnsUpdates(done) || u in TxnUpdates(t) {
      if u in TxnsUpdates(done) {
        var e :| e in done && u in TxnUpdates(done[e]);
        assert more[e] == done[e];
      }
      if u in TxnUpdates(t) {
        assert more[d] == t;
      }
    }
  }

  lemma MoreFees(done: map<Digest, Txn>, d: Digest, t: Txn)
    requires d !in done
    ensures ProposerFees(done[d := t]) % U128 == (ProposerFees(done) % U128 + t.proposerFeeShare) % U128
  {
    ProposerFeesWithout(done[d := t], d);
    assert done[d := t] - {d} == done;
    WrapAdd(ProposerFees(done), t.proposerFeeShare);
  }

  /** The loop of `from_block` with the transactions in `done` behind it. */
  ghost predicate Processed(
    b: ProposalBlock, todo: set<Digest>, done: map<Digest, Txn>, updates: set<StateUpdate>, fees: u128)
  {
    && todo <= b.txns.Keys && done.Keys == b.txns.Keys - todo
    && (forall d <- done :: done[d] == b.txns[d] && !FeePanics(done[d]))
    && updates == TxnsUpdates(done) && fees == ProposerFees(done) % U128
  }

  lemma ProcessOne(
    b: ProposalBlock, todo: set<Digest>, done: map<Digest, Txn>, updates: set<StateUpdate>, fees: u128, d: Digest)
    requires Processed(b, todo, done, updates, fees) && d in todo && !FeePanics(b.txns[d])
    ensures var t := b.txns[d];
            Processed(b, todo - {d}, done[d := t], updates + TxnUpdates(t), (fees + t.proposerFeeShare) % U128)
  {
    MoreUpdates(done, d, b.txns[d]);
    MoreFees(done, d, b.txns[d]);
  }

  lemma ProcessedAll(b: ProposalBlock, done: map<Digest, Txn>, updates: set<StateUpdate>, fees: u128)
    requires Processed(b, {}, done, updates, fees)
    ensures !BlockPanics(b) && BlockUpdates(b) == updates + {FeeUpdate(b.from.address, Some(DEFAULT_TOKEN), fees)}
  {
    assert done == b.txns;
  }

  /** The loop of `from_block`: accumulates the updates in a set and the proposer's fees
      in a wrapping counter; `None` if the division of a fee panics. */
  method Accumulate(b: ProposalBlock) returns (r: Option<set<StateUpdate>>)
    ensures r.None? <==> BlockPanics(b)
    ensures r.Some? ==> r.value == BlockUpdates(b)
  {
    var updates: set<StateUpdate> := {};
    var fees: u128 := 0;
    var todo := b.txns.Keys;
    ghost var done: map<Digest, Txn> := map[];
    while todo != {}
      invariant Processed(b, todo, done, updates, fees)
      decreases todo
    {
      var d :| d in todo;
      if FeePanics(b.txns[d]) {
        return None;
      }
      ProcessOne(b, todo, done, updates, fees, d);
      var t := b.txns[d];
      var more := updates + TxnUpdates(t);
      fees, updates := (fees + t.proposerFeeShare) % U128, more;
      done, todo := done[d := t], todo - {d};
    }
    ProcessedAll(b, done, updates, fees);
    r := Some(updates + {FeeUpdate(b.from.address, Some(DEFAULT_TOKEN), fees)});
  }

  // ---- What the updates of a block are, with the votes written out --------

  /** The transaction carries votes, and all of them are against it. */
  predicate OnlyRejected(t: Txn) {
    t.validators.Some? && forall k <- t.validators.value :: !t.validators.value[k]
  }

  /** A block panics exactly if some transaction carries votes of which none is for it. */
  lemma PanicsExactly(b: ProposalBlock)
    ensures BlockPanics(b) <==> exists d :: d in b.txns && OnlyRejected(b.txns[d])
  {
    forall d <- b.txns ensures FeePanics(b.txns[d]) <==> OnlyRejected(b.txns[d]) {
      PanicsFor(b.txns[d]);
    }
  }

  lemma PanicsFor(t: Txn)
    ensures FeePanics(t) <==> OnlyRejected(t)
  {
    if t.validators.Some? && !OnlyRejected(t) {
      var k :| k in t.validators.value && t.validators.value[k];
      assert k in Approving(t);
    }
  }

  /** How many votes are for the transaction, counted one by one. */
  ghost function Votes(votes: map<ValidatorKey, bool>): nat {
    if votes == map[] then 0 else var k :| k in votes; (if votes[k] then 1 else 0) + Votes(votes - {k})
  }

  lemma {:induction false} VotesCounted(votes: map<ValidatorKey, bool>)
    ensures Votes(votes) == |set k | k in votes && votes[k]|
  {
    var yes := set k | k in votes && votes[k];
    if votes == map[] {
      assert yes == {};
    } else {
      var k :| k in votes && Votes(votes) == (if votes[k] then 1 else 0) + Votes(votes - {k});
      VotesCounted(votes - {k});
      var rest := set l | l in votes - {k} && (votes - {k})[l];
      if votes[k] {
        assert yes == rest + {k};
      } else {
        assert yes == rest;
      }
    }
  }

  /** The transaction pays a validator at `a` the amount `x`: its vote was for it, and `x`
      is the validators' share divided by the number of votes for it. */
  ghost predicate Pays(t: Txn, a: Address, x: u128) {
    && t.validators.Some? && Votes(t.validators.value) > 0
    && x == t.validatorFeeShare / Votes(t.validators.value)
    && exists k :: k in t.validators.value && t.validators.value[k] && k.address == Some(a)
  }

  /** A fee without a token is paid exactly by the transactions that pay it. */
  lemma ValidatorFeesExactly(b: ProposalBlock, a: Address, x: u128)
    requires !BlockPanics(b)
    ensures StateUpdate(a, None, x, None, None, None, DEFAULT_DIGEST, Fee) in BlockUpdates(b) <==>
            exists d :: d in b.txns && Pays(b.txns[d], a, x)
  {
    var v := StateUpdate(a, None, x, None, None, None, DEFAULT_DIGEST, Fee);
    forall d <- b.txns ensures v in TxnUpdates(b.txns[d]) <==> Pays(b.txns[d], a, x) {
      PaysExactly(b.txns[d], a, x);
    }
  }

  lemma PaysExactly(t: Txn, a: Address, x: u128)
    requires !FeePanics(t)
    ensures StateUpdate(a, None, x, None, None, None, DEFAULT_DIGEST, Fee) in TxnUpdates(t) <==> Pays(t, a, x)
  {
    if t.validators.Some? {
      VotesCounted(t.validators.value);
      assert Approving(t) == set k | k in t.validators.value && t.validators.value[k];
      if k :| k in t.validators.value && t.validators.value[k] && k.address == Some(a) {
        assert k in Approving(t);
      }
    }
  }

  /** The proposer's shares of the listed transactions. */
  function Shares(txns: map<Digest, Txn>, order: seq<Digest>): nat
    requires forall d <- order :: d in txns
  {
    if order == [] then 0
    else Shares(txns, order[..|order| - 1]) + txns[order[|order| - 1]].proposerFeeShare
  }

  lemma {:induction false} SharesAddUp(txns: map<Digest, Txn>, order: seq<Digest>)
    requires Enumerates(order, txns.Keys)
    ensures ProposerFees(txns) == Shares(txns, order)
  {
    if order == [] {
      assert txns == map[] || exists d :: d in txns;
    } else {
      var last, d := |order| - 1, order[|order| - 1];
      assert d in order;
      ProposerFeesWithout(txns, d);
      var rest := txns - {d};
      forall e ensures e in order[..last] <==> e in rest {
        if e in rest {
          var i :| 0 <= i < |order| && order[i] == e;
          assert order[..last][i] == e;
        }
      }
      SharesAddUp(rest, order[..last]);
      SameShares(txns, rest, order[..last]);
    }
  }

  lemma {:induction false} SameShares(txns: map<Digest, Txn>, rest: map<Digest, Txn>, order: seq<Digest>)
    requires forall d <- order :: d in txns && d in rest && rest[d] == txns[d]
    ensures Shares(rest, order) == Shares(txns, order)
  {
    if order != [] {
      SameShares(txns, rest, order[..|order| - 1]);
    }
  }

  /** The only other fee is the proposer's: the shares of the block's transactions, in
      whatever order they are added, modulo 2^128. */
  lemma ProposerFeeExactly(b: ProposalBlock, v: StateUpdate, order: seq<Digest>)
    requires !BlockPanics(b) && Enumerates(order, b.txns.Keys) && v.updateAccount == Fee && v.token.Some?
    ensures v in BlockUpdates(b) <==>
            v == StateUpdate(b.from.address, Some(DEFAULT_TOKEN), Shares(b.txns, order) % U128,
                             None, None, None, DEFAULT_DIGEST, Fee)
  {
    SharesAddUp(b.txns, order);
  }

  /** The other updates are the two sides of the block's transactions. */
  lemma SidesExactly(b: ProposalBlock, v: StateUpdate)
    requires !BlockPanics(b) && v.updateAccount != Fee
    ensures v in BlockUpdates(b) <==>
            exists d :: d in b.txns && var t := b.txns[d];
              || v == StateUpdate(t.sender, Some(t.token), t.amount, Some(t.nonce), None, None, t.id, Sender)
              || v == StateUpdate(t.receiver, Some(t.token), t.amount, None, None, None, t.id, Receiver)
  {
    forall d <- b.txns
      ensures v in TxnUpdates(b.txns[d]) <==> var t := b.txns[d];
                || v == StateUpdate(t.sender, Some(t.token), t.amount, Some(t.nonce), None, None, t.id, Sender)
                || v == StateUpdate(t.receiver, Some(t.token), t.amount, None, None, None, t.id, Receiver)
    {
      assert v !in ValidatorFees(b.txns[d]);
    }
  }

  /** `from_block`. */
  method FromBlock(b: ProposalBlock) returns (r: Option<set<StateUpdate>>)
    ensures r.None? <==> BlockPanics(b)
    ensures r.None? <==> exists d :: d in b.txns && OnlyRejected(b.txns[d])
    ensures r.Some? ==> r.value == BlockUpdates(b)
    ensures r.Some? ==> forall a, x: u128 ::
              StateUpdate(a, None, x, None, None, None, DEFAULT_DIGEST, Fee) in r.value <==>
              exists d :: d in b.txns && Pays(b.txns[d], a, x)
  {
    PanicsExactly(b);
    r := Accumulate(b);
    if r.Some? {
      forall a, x: u128
        ensures StateUpdate(a, None, x, None, None, None, DEFAULT_DIGEST, Fee) in r.value <==>
                exists d :: d in b.txns && Pays(b.txns[d], a, x)
      {
        ValidatorFeesExactly(b, a, x);
      }
    }
  }
}
