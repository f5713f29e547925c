/** What a round does to one account, in terms of the round's transactions only. */
module AccountEffects {
  import opened Options
  import opened Orders
  import opened Blocks
  import opened Accounts
  import opened Batch
  import opened RoundUpdates
  import opened Transfers
  import opened RoundState

  // ---- Digests and nonces of a batch --------------------------------------

  predicate CarriesSent(u: UpdateArgs, d: Digest) {
    u.digests.Some? && d in u.digests.value.sent
  }

  predicate CarriesRecv(u: UpdateArgs, d: Digest) {
    u.digests.Some? && d in u.digests.value.recv
  }

  predicate CarriesStake(u: UpdateArgs, d: Digest) {
    u.digests.Some? && d in u.digests.value.stake
  }

  lemma {:induction false} TotalDigests(us: seq<UpdateArgs>, d: Digest)
    ensures var t := Totals(us);
            && ((t.digests.Some? && d in t.digests.value.sent) <==> exists u :: u in us && CarriesSent(u, d))
            && ((t.digests.Some? && d in t.digests.value.recv) <==> exists u :: u in us && CarriesRecv(u, d))
            && ((t.digests.Some? && d in t.digests.value.stake) <==> exists u :: u in us && CarriesStake(u, d))
  {
    if us != [] {
      var before, last := us[..|us| - 1], us[|us| - 1];
      TotalDigests(before, d);
      assert us == before + [last];
      assert last in us && forall u <- before :: u in us;
    }
  }

  lemma {:induction false} TotalNonce(us: seq<UpdateArgs>)
    ensures var n := Totals(us).nonce;
            && (n.Some? ==> exists u :: u in us && u.nonce == n)
            && (forall u <- us :: u.nonce.Some? ==> n.Some? && u.nonce.value <= n.value)
  {
    if us != [] {
      var before, last := us[..|us| - 1], us[|us| - 1];
      TotalNonce(before);
      assert us == before + [last];
    }
  }

  lemma {:induction false} TotalDebits(us: seq<UpdateArgs>)
    ensures Totals(us).debits.Some? <==> exists u :: u in us && u.debits.Some?
  {
    if us != [] {
      var before, last := us[..|us| - 1], us[|us| - 1];
      TotalDebits(before);
      assert us == before + [last];
    }
  }

  // ---- The updates of one address -----------------------------------------

  /** An update of `a` is the sender's side of a transaction it sent, the receiver's
      side of one it received, or a fee; and it has all of them. */
  lemma OwnUpdates(blocks: seq<ProposalBlock>, order: seq<UpdateArgs>, a: Address, u: UpdateArgs)
    requires NoPanic(blocks) && Enumerates(order, RoundArgs(blocks))
    ensures var ts := TxnsOf(blocks);
            u in Of(order, a) <==>
              || (exists t :: t in Party(ts, a, true) && u == Side(t, true))
              || (exists t :: t in Party(ts, a, false) && u == Side(t, false))
              || (u in FeesIn(RoundArgs(blocks)) && u.address == a)
  {
    var ts := TxnsOf(blocks);
    OfElements(order, a);
    assert u in Of(order, a) <==> u in Elements(order) && u.address == a;
    RoundArgsSplit(blocks);
    SidesAt(ts, a, true);
    SidesAt(ts, a, false);
    assert u in At(Sides(ts, true), a) <==> u in Sides(Party(ts, a, true), true);
    assert u in At(Sides(ts, false), a) <==> u in Sides(Party(ts, a, false), false);
  }

  lemma FeesCarryNothing(blocks: seq<ProposalBlock>, u: UpdateArgs)
    requires NoPanic(blocks) && u in FeesIn(RoundArgs(blocks))
    ensures u.nonce.None? && u.debits.None?
  {
    var v :| v in RoundUpdatesOf(blocks) && ToArgs(v) == u;
    UpdateOrigin(blocks, v);
    FeeNonce(blocks, v);
  }

  lemma FeeNonce(blocks: seq<ProposalBlock>, v: StateUpdate)
    requires NoPanic(blocks) && v in RoundUpdatesOf(blocks) && v.updateAccount == Fee
    ensures v.nonce.None?
  {
    var b :| b in blocks && v in BlockUpdates(b);
    if v in TxnsUpdates(b.txns) {
      var d :| d in b.txns && v in TxnUpdates(b.txns[d]);
    }
  }

  /** The consolidated digests of an address are those of its transactions. */
  lemma OwnDigests(blocks: seq<ProposalBlock>, order: seq<UpdateArgs>, a: Address, d: Digest)
    requires NoPanic(blocks) && Enumerates(order, RoundArgs(blocks))
    ensures (exists u :: u in Of(order, a) && CarriesSent(u, d)) <==> d in Ids(Party(TxnsOf(blocks), a, true))
    ensures (exists u :: u in Of(order, a) && CarriesRecv(u, d)) <==> d in Ids(Party(TxnsOf(blocks), a, false))
  {
    var ts := TxnsOf(blocks);
    forall u | u in Of(order, a)
      ensures CarriesSent(u, d) ==> d in Ids(Party(ts, a, true))
      ensures CarriesRecv(u, d) ==> d in Ids(Party(ts, a, false))
    {
      OwnUpdates(blocks, order, a, u);
    }
    forall t | t in Party(ts, a, true) && t.id == d
      ensures Side(t, true) in Of(order, a) && CarriesSent(Side(t, true), d)
    {
      OwnUpdates(blocks, order, a, Side(t, true));
    }
    forall t | t in Party(ts, a, false) && t.id == d
      ensures Side(t, false) in Of(order, a) && CarriesRecv(Side(t, false), d)
    {
      OwnUpdates(blocks, order, a, Side(t, false));
    }
  }

  /** Nonces and debits come from the transactions the address sent. */
  lemma OwnNonces(blocks: seq<ProposalBlock>, order: seq<UpdateArgs>, a: Address)
    requires NoPanic(blocks) && Enumerates(order, RoundArgs(blocks))
    ensures forall u <- Of(order, a) :: u.nonce.Some? || u.debits.Some? ==>
              exists t :: t in Party(TxnsOf(blocks), a, true) && u == Side(t, true)
    ensures forall t <- Party(TxnsOf(blocks), a, true) :: Side(t, true) in Of(order, a)
  {
    forall u | u in Of(order, a) && (u.nonce.Some? || u.debits.Some?)
      ensures exists t :: t in Party(TxnsOf(blocks), a, true) && u == Side(t, true)
    {
      OwnUpdates(blocks, order, a, u);
      if u in FeesIn(RoundArgs(blocks)) {
        FeesCarryNothing(blocks, u);
      }
    }
    forall t | t in Party(TxnsOf(blocks), a, true) ensures Side(t, true) in Of(order, a) {
      OwnUpdates(blocks, order, a, Side(t, true));
    }
  }

  // ---- The effect on the account ------------------------------------------

  /** The account can take part in the round: it can hold the credits, cover the
      debits, and some transaction it sent has a nonce not below the account's. */
  ghost predicate Accepted(s: AccountState, blocks: seq<ProposalBlock>, a: Address)
    requires NoPanic(blocks)
  {
    var sent := Party(TxnsOf(blocks), a, true);
    && s.credits + CreditedTo(blocks, a) < U128
    && (sent != {} ==> s.debits + Debited(blocks, a) <= s.credits + CreditedTo(blocks, a))
    && (sent != {} ==> exists t :: t in sent && s.nonce <= t.nonce)
  }

  /** The nonce moves only if something was sent, by the highest nonce sent. */
  ghost predicate Advanced(before: u128, after: u128, sent: set<Txn>) {
    if sent == {} then after == before
    else exists t :: t in sent && (forall u <- sent :: u.nonce <= t.nonce) && after == NextNonce(before, t.nonce)
  }

  lemma AppliedAdvances(s: AccountState, blocks: seq<ProposalBlock>, order: seq<UpdateArgs>, a: Address)
    requires NoPanic(blocks) && Enumerates(order, RoundArgs(blocks)) && Of(order, a) != []
    requires ApplyUpdate(s, Consolidated(Of(order, a))).1
    ensures Advanced(s.nonce, ApplyUpdate(s, Consolidated(Of(order, a))).0.nonce, Party(TxnsOf(blocks), a, true))
  {
    ConsolidatedNonce(blocks, order, a);
  }

  /** The consolidated update carries debits and a nonce exactly if the address sent something, and then
      the highest nonce of what it sent. */
  lemma ConsolidatedNonce(blocks: seq<ProposalBlock>, order: seq<UpdateArgs>, a: Address)
    requires NoPanic(blocks) && Enumerates(order, RoundArgs(blocks)) && Of(order, a) != []
    ensures var c, sent := Consolidated(Of(order, a)), Party(TxnsOf(blocks), a, true);
            && (c.debits.Some? <==> sent != {}) && (c.nonce.Some? <==> sent != {})
            && (c.nonce.Some? ==> exists t :: t in sent && t.nonce == c.nonce.value)
            && (c.nonce.Some? ==> forall t <- sent :: t.nonce <= c.nonce.value)
  {
    var us, sent := Of(order, a), Party(TxnsOf(blocks), a, true);
    ConsolidatedIsTotal(us);
    TotalNonce(us);
    TotalDebits(us);
    OwnNonces(blocks, order, a);
    forall t | t in sent ensures Side(t, true) in us && Side(t, true).nonce == Some(t.nonce) { }
    if sent != {} {
      var t :| t in sent;
      assert Side(t, true).debits.Some?;
    }
  }

  /** The consolidated update succeeds exactly when the account is accepted. */
  lemma AcceptedExactly(s: AccountState, blocks: seq<ProposalBlock>, order: seq<UpdateArgs>, a: Address)
    requires NoPanic(blocks) && DigestsIdentify(TxnsOf(blocks))
    requires Enumerates(order, RoundArgs(blocks)) && Of(order, a) != []
    ensures ApplyUpdate(s, Consolidated(Of(order, a))).1 <==> Accepted(s, blocks, a)
  {
    AddressTotals(blocks, order, a);
    ConsolidatedNonce(blocks, order, a);
  }

  lemma ConsolidatedDigests(s: AccountState, blocks: seq<ProposalBlock>, order: seq<UpdateArgs>, a: Address)
    requires NoPanic(blocks) && Enumerates(order, RoundArgs(blocks)) && Of(order, a) != []
    ensures var c, ts := Consolidated(Of(order, a)), TxnsOf(blocks);
            var ds := if c.digests.Some? then ExtendAll(s.digests, c.digests.value) else s.digests;
            && ds.sent == s.digests.sent + Ids(Party(ts, a, true))
            && ds.recv == s.digests.recv + Ids(Party(ts, a, false))
            && ds.stake == s.digests.stake
  {
    var c, ts := Consolidated(Of(order, a)), TxnsOf(blocks);
    ConsolidatedIsTotal(Of(order, a));
    forall d
      ensures (c.digests.Some? && d in c.digests.value.sent) <==> d in Ids(Party(ts, a, true))
      ensures (c.digests.Some? && d in c.digests.value.recv) <==> d in Ids(Party(ts, a, false))
      ensures !(c.digests.Some? && d in c.digests.value.stake)
    {
      TotalDigests(Of(order, a), d);
      OwnDigests(blocks, order, a, d);
      forall u | u in Of(order, a) ensures !CarriesStake(u, d) {
        OwnUpdates(blocks, order, a, u);
      }
    }
  }

  /** An account after a round, for every iteration order: if it is accepted it is
      debited what it sent and credited what it received plus its fees, and it lists
      the digests of exactly those transactions in addition, and its nonce advances by the
      highest nonce it sent; otherwise, or if the
      round does not concern it, it is unchanged. */
  lemma EffectOnAccount(s: AccountState, blocks: seq<ProposalBlock>, order: seq<UpdateArgs>, a: Address)
    requires NoPanic(blocks) && DigestsIdentify(TxnsOf(blocks)) && Enumerates(order, RoundArgs(blocks))
    ensures var s', ts := UpdatedAccount(s, Of(order, a)), TxnsOf(blocks);
            if Of(order, a) != [] && Accepted(s, blocks, a) then
              && s'.credits == s.credits + CreditedTo(blocks, a)
              && s'.debits == s.debits + Debited(blocks, a)
              && s'.digests.sent == s.digests.sent + Ids(Party(ts, a, true))
              && s'.digests.recv == s.digests.recv + Ids(Party(ts, a, false))
              && s'.digests.stake == s.digests.stake
              && Advanced(s.nonce, s'.nonce, Party(ts, a, true))
            else s' == s
  {
    if Of(order, a) != [] {
      AcceptedExactly(s, blocks, order, a);
      AddressTotals(blocks, order, a);
      ConsolidatedDigests(s, blocks, order, a);
      if Accepted(s, blocks, a) {
        AppliedAdvances(s, blocks, order, a);
      }
    }
  }

  /** A transfer erases code and storage: an accepted account loses both if the update of
      it that is met last is a side of a transaction, and keeps both if it is a fee. */
  lemma CodeAndStorage(s: AccountState, blocks: seq<ProposalBlock>, order: seq<UpdateArgs>, a: Address)
    requires NoPanic(blocks) && DigestsIdentify(TxnsOf(blocks)) && Enumerates(order, RoundArgs(blocks))
    ensures var s', us := UpdatedAccount(s, Of(order, a)), Of(order, a);
            if us == [] || !Accepted(s, blocks, a) || us[|us| - 1] in FeesIn(RoundArgs(blocks))
            then s'.code == s.code && s'.storage == s.storage
            else s'.code == None && s'.storage == None
  {
    var us := Of(order, a);
    if us != [] {
      AcceptedExactly(s, blocks, order, a);
      LastWrites(blocks, order, a, us[|us| - 1]);
      UpdatedCode(s, us, ApplyUpdate(s, Consolidated(us)).1);
    }
  }

  lemma UpdatedCode(s: AccountState, us: seq<UpdateArgs>, ok: bool)
    requires us != [] && ok == ApplyUpdate(s, Consolidated(us)).1
    ensures var s', last := UpdatedAccount(s, us), us[|us| - 1];
            && s'.code == (if ok && last.code.Some? then last.code.value else s.code)
            && s'.storage == (if ok && last.storage.Some? then last.storage.value else s.storage)
  {
    LastMergedWins(us);
  }

  lemma LastWrites(blocks: seq<ProposalBlock>, order: seq<UpdateArgs>, a: Address, u: UpdateArgs)
    requires NoPanic(blocks) && Enumerates(order, RoundArgs(blocks)) && u in Of(order, a)
    ensures if u in FeesIn(RoundArgs(blocks)) then u.code == None && u.storage == None
            else u.code == Some(None) && u.storage == Some(None)
  {
    OwnUpdates(blocks, order, a, u);
    if u in FeesIn(RoundArgs(blocks)) {
      FeesWriteNothing(blocks, u);
    }
  }

  lemma FeesWriteNothing(blocks: seq<ProposalBlock>, u: UpdateArgs)
    requires NoPanic(blocks) && u in FeesIn(RoundArgs(blocks))
    ensures u.code.None? && u.storage.None?
  {
    var v :| v in RoundUpdatesOf(blocks) && ToArgs(v) == u;
  }
}
