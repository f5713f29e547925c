/** Value over the whole account store: what the accounts together gain in a round,
    and exactly when that conserves value. */
module Ledger {
  import opened Orders
  import opened Blocks
  import opened Accounts
  import opened Batch
  import opened Transfers
  import opened RoundState
  import opened AccountEffects

  type Store = map<Address, AccountState>

  // ---- One account --------------------------------------------------------

  function Balance(s: AccountState, debit: bool): u128 {
    if debit then s.debits else s.credits
  }

  function Gains(before: Store, after: Store, debit: bool): map<Address, int>
    requires before.Keys == after.Keys
  {
    map a | a in before :: Balance(after[a], debit) - Balance(before[a], debit)
  }

  /** The existing accounts that can take part in the round. */
  ghost function Participants(before: Store, blocks: seq<ProposalBlock>): set<Address>
    requires NoPanic(blocks)
  {
    set a | a in before && Accepted(before[a], blocks, a)
  }

  ghost predicate Round(blocks: seq<ProposalBlock>, order: seq<UpdateArgs>) {
    NoPanic(blocks) && DigestsIdentify(TxnsOf(blocks)) && Enumerates(order, RoundArgs(blocks))
  }

  lemma NothingForOthers(blocks: seq<ProposalBlock>, order: seq<UpdateArgs>, a: Address, debit: bool)
    requires Round(blocks, order) && Of(order, a) == []
    ensures Sum(At(RoundArgs(blocks), a), debit) == 0
  {
    OfElements(order, a);
    assert Elements(order) == RoundArgs(blocks);
    assert At(RoundArgs(blocks), a) == {};
  }

  /** An account that takes part gains the sum of its own updates, modulo 2^128. */
  lemma AccountGains(s: AccountState, blocks: seq<ProposalBlock>, order: seq<UpdateArgs>, a: Address, debit: bool)
    requires Round(blocks, order)
    ensures Balance(UpdatedAccount(s, Of(order, a)), debit) - Balance(s, debit) ==
            if Accepted(s, blocks, a) then Sum(At(RoundArgs(blocks), a), debit) % U128 else 0
  {
    EffectOnAccount(s, blocks, order, a);
    if Of(order, a) == [] {
      NothingForOthers(blocks, order, a, debit);
    } else if debit {
      DebitsAt(blocks, a);
    } else {
      CreditsAt(blocks, a);
    }
  }

  // ---- The whole store ----------------------------------------------------

  lemma StoreGains(before: Store, blocks: seq<ProposalBlock>, order: seq<UpdateArgs>, debit: bool)
    requires Round(blocks, order)
    ensures var us, part := RoundArgs(blocks), Participants(before, blocks);
            SumOver(Gains(before, UpdatedAccounts(before, order), debit)) + U128 * Carries(us, part, debit) ==
            Sum(AtAny(us, part), debit)
  {
    var us, part := RoundArgs(blocks), Participants(before, blocks);
    var gains := Gains(before, UpdatedAccounts(before, order), debit);
    forall a <- gains ensures gains[a] == if a in part then Sum(At(us, a), debit) % U128 else 0 {
      AccountGains(before[a], blocks, order, a, debit);
    }
    WrappedTotals(gains, part, us, debit);
    assert gains.Keys * part == part;
  }

  lemma {:induction false} VolumeDisjoint(ts: set<Txn>, us: set<Txn>)
    requires ts !! us
    ensures Volume(ts + us) == Volume(ts) + Volume(us)
  {
    if ts == {} {
      assert ts + us == us;
    } else {
      var t :| t in ts;
      VolumeWithout(ts, t);
      VolumeWithout(ts + us, t);
      VolumeDisjoint(ts - {t}, us);
      assert ts + us - {t} == ts - {t} + us;
    }
  }

  /** Sent by somebody who does not take part and received by somebody who does: value appears. */
  function Appearing(ts: set<Txn>, part: set<Address>): set<Txn> {
    set t | t in ts && t.sender !in part && t.receiver in part
  }

  /** Sent by somebody who takes part and received by somebody who does not: value vanishes. */
  function Vanishing(ts: set<Txn>, part: set<Address>): set<Txn> {
    set t | t in ts && t.sender in part && t.receiver !in part
  }

  lemma Imbalance(ts: set<Txn>, part: set<Address>)
    ensures Volume(PartyAny(ts, part, false)) + Volume(Vanishing(ts, part)) ==
            Volume(PartyAny(ts, part, true)) + Volume(Appearing(ts, part))
  {
    var both := set t | t in ts && t.sender in part && t.receiver in part;
    VolumeDisjoint(both, Appearing(ts, part));
    VolumeDisjoint(both, Vanishing(ts, part));
    assert PartyAny(ts, part, false) == both + Appearing(ts, part);
    assert PartyAny(ts, part, true) == both + Vanishing(ts, part);
  }

  /** What the accounts gain in a round, all together: debits, credits and, of the latter, fees. */
  ghost function Gained(before: Store, order: seq<UpdateArgs>, debit: bool): int {
    SumOver(Gains(before, UpdatedAccounts(before, order), debit))
  }

  ghost function FeesGained(before: Store, blocks: seq<ProposalBlock>): nat
    requires NoPanic(blocks)
  {
    Sum(AtAny(FeesIn(RoundArgs(blocks)), Participants(before, blocks)), false)
  }

  /** How often the participants' sums wrap around. */
  ghost function Wraps(before: Store, blocks: seq<ProposalBlock>, debit: bool): nat
    requires NoPanic(blocks)
  {
    Carries(RoundArgs(blocks), Participants(before, blocks), debit)
  }

  /** Any round over any account store, for every iteration order: the debits gained are
      the volume that existing accepted accounts sent, and the credits gained the volume
      they received and their fees, each less 2^128 for every wrap-around.  Credits other
      than fees and debits therefore differ by exactly the value that appears and
      vanishes and by the wrap-arounds. */
  lemma LedgerGains(before: Store, blocks: seq<ProposalBlock>, order: seq<UpdateArgs>)
    requires Round(blocks, order)
    ensures var part, ts := Participants(before, blocks), TxnsOf(blocks);
            var debits, credits := Gained(before, order, true), Gained(before, order, false);
            var fees := FeesGained(before, blocks);
            && debits + U128 * Wraps(before, blocks, true) == Volume(PartyAny(ts, part, true))
            && credits + U128 * Wraps(before, blocks, false) == Volume(PartyAny(ts, part, false)) + fees
            && credits - fees + U128 * Wraps(before, blocks, false) + Volume(Vanishing(ts, part)) ==
               debits + U128 * Wraps(before, blocks, true) + Volume(Appearing(ts, part))
  {
    StoreGains(before, blocks, order, true);
    StoreGains(before, blocks, order, false);
    RoundAtAny(blocks, Participants(before, blocks));
    Imbalance(TxnsOf(blocks), Participants(before, blocks));
  }

  ghost predicate AllTakePart(before: Store, blocks: seq<ProposalBlock>)
    requires NoPanic(blocks)
  {
    var part := Participants(before, blocks);
    forall t <- TxnsOf(blocks) :: t.sender in part && t.receiver in part
  }

  /** No participant's own debits, or credits, of the round reach 2^128. */
  ghost predicate NothingReaches(before: Store, blocks: seq<ProposalBlock>, debit: bool)
    requires NoPanic(blocks)
  {
    forall a <- Participants(before, blocks) :: Sum(At(RoundArgs(blocks), a), debit) < U128
  }

  /** If all senders and receivers take part, the store gains the round's volume as debits
      exactly if no participant's own debits reach 2^128, and that volume and the fees as
      credits exactly if no participant's own credits do; credits other than fees equal
      debits exactly if both wrap around equally often. */
  lemma LedgerBalances(before: Store, blocks: seq<ProposalBlock>, order: seq<UpdateArgs>)
    requires Round(blocks, order) && AllTakePart(before, blocks)
    ensures var debits, credits := Gained(before, order, true), Gained(before, order, false);
            var fees := FeesGained(before, blocks);
            && (debits == Volume(TxnsOf(blocks)) <==> NothingReaches(before, blocks, true))
            && (credits == Volume(TxnsOf(blocks)) + fees <==> NothingReaches(before, blocks, false))
            && (credits - fees == debits <==> Wraps(before, blocks, true) == Wraps(before, blocks, false))
  {
    AllGain(before, blocks, order);
    InFull(before, blocks, true, Gained(before, order, true), Volume(TxnsOf(blocks)));
    InFull(before, blocks, false, Gained(before, order, false), Volume(TxnsOf(blocks)) + FeesGained(before, blocks));
  }

  lemma InFull(before: Store, blocks: seq<ProposalBlock>, debit: bool, gained: int, sum: nat)
    requires NoPanic(blocks) && gained + U128 * Wraps(before, blocks, debit) == sum
    ensures gained == sum <==> NothingReaches(before, blocks, debit)
  {
    NoCarry(RoundArgs(blocks), Participants(before, blocks), debit);
  }

  lemma AllGain(before: Store, blocks: seq<ProposalBlock>, order: seq<UpdateArgs>)
    requires Round(blocks, order) && AllTakePart(before, blocks)
    ensures var volume := Volume(TxnsOf(blocks));
            && Gained(before, order, true) + U128 * Wraps(before, blocks, true) == volume
            && Gained(before, order, false) + U128 * Wraps(before, blocks, false) == volume + FeesGained(before, blocks)
  {
    AllAreParties(before, blocks);
    LedgerGains(before, blocks, order);
  }

  lemma AllAreParties(before: Store, blocks: seq<ProposalBlock>)
    requires NoPanic(blocks) && AllTakePart(before, blocks)
    ensures var part, ts := Participants(before, blocks), TxnsOf(blocks);
            PartyAny(ts, part, true) == ts && PartyAny(ts, part, false) == ts
  {
  }

  // ---- Rounds that do not conserve value ----------------------------------

  lemma OneTransfer(t: Txn)
    requires t.sender != t.receiver
    ensures Volume(PartyAny({t}, {t.receiver}, true)) == 0 && Volume(PartyAny({t}, {t.receiver}, false)) == t.amount
  {
    assert PartyAny({t}, {t.receiver}, true) == {} && PartyAny({t}, {t.receiver}, false) == {t};
    VolumeWithout({t}, t);
    assert {t} - {t} == {};
  }

  /** A sender whose nonce is already above the transaction's, and a new receiver. */
  function StaleAndNew(t: Txn): Store
    requires t.nonce < U128 - 1
  {
    map[t.sender := NEW_ACCOUNT.(nonce := t.nonce + 1), t.receiver := NEW_ACCOUNT]
  }

  lemma OnlyReceiver(blocks: seq<ProposalBlock>, t: Txn)
    requires NoPanic(blocks) && TxnsOf(blocks) == {t} && t.sender != t.receiver && t.nonce < U128 - 1
    ensures Participants(StaleAndNew(t), blocks) == {t.receiver}
  {
    assert t in Party({t}, t.sender, true) && Party({t}, t.receiver, true) == {};
  }

  /** If only one account takes part, the round is its own. */
  lemma OneParticipant(before: Store, blocks: seq<ProposalBlock>, a: Address, debit: bool)
    requires NoPanic(blocks) && Participants(before, blocks) == {a}
    requires Sum(At(RoundArgs(blocks), a), debit) < U128
    ensures Wraps(before, blocks, debit) == 0
    ensures FeesGained(before, blocks) == Sum(At(FeesIn(RoundArgs(blocks)), a), false)
  {
    NoCarry(RoundArgs(blocks), {a}, debit);
    assert AtAny(FeesIn(RoundArgs(blocks)), {a}) == At(FeesIn(RoundArgs(blocks)), a);
  }

  lemma ReceiverOnly(blocks: seq<ProposalBlock>, t: Txn)
    requires NoPanic(blocks) && DigestsIdentify(TxnsOf(blocks)) && TxnsOf(blocks) == {t} && t.sender != t.receiver
    ensures var us := RoundArgs(blocks);
            && Sum(At(us, t.receiver), true) == 0
            && Sum(At(us, t.receiver), false) == t.amount + Sum(At(FeesIn(us), t.receiver), false)
  {
    RoundAt(blocks, t.receiver);
    assert Party({t}, t.receiver, true) == {} && Party({t}, t.receiver, false) == {t};
    VolumeWithout({t}, t);
    assert {t} - {t} == {};
  }

  /** Value appears: the only transaction's sender is stale while the receiver is new, so
      the receiver is credited, modulo 2^128 with its fees, and nobody is debited. */
  lemma ValueAppears(blocks: seq<ProposalBlock>, order: seq<UpdateArgs>, t: Txn)
    requires Round(blocks, order) && TxnsOf(blocks) == {t} && t.sender != t.receiver && t.nonce < U128 - 1
    ensures Gained(StaleAndNew(t), order, true) == 0
    ensures var fees := Sum(At(FeesIn(RoundArgs(blocks)), t.receiver), false);
            t.amount + fees < U128 ==> Gained(StaleAndNew(t), order, false) == t.amount + fees
  {
    OnlyReceiver(blocks, t);
    LedgerGains(StaleAndNew(t), blocks, order);
    OneTransfer(t);
    ReceiverOnly(blocks, t);
    OneParticipant(StaleAndNew(t), blocks, t.receiver, true);
    if t.amount + Sum(At(FeesIn(RoundArgs(blocks)), t.receiver), false) < U128 {
      OneParticipant(StaleAndNew(t), blocks, t.receiver, false);
    }
  }

  const HALF: u128 := 0x8000_0000_0000_0000_0000_0000_0000_0000

  /** One sender, two receivers, 2^127 for each of them. */
  ghost predicate TwoHalves(blocks: seq<ProposalBlock>, t: Txn, u: Txn) {
    && TxnsOf(blocks) == {t, u} && t.id != u.id && t.amount == HALF && u.amount == HALF
    && t.sender == u.sender && t.sender != t.receiver && t.sender != u.receiver && t.receiver != u.receiver
  }

  ghost predicate NoFeesAt(blocks: seq<ProposalBlock>, a: Address)
    requires NoPanic(blocks)
  {
    Sum(At(FeesIn(RoundArgs(blocks)), a), false) == 0
  }

  lemma SenderSums(blocks: seq<ProposalBlock>, t: Txn, u: Txn)
    requires NoPanic(blocks) && DigestsIdentify(TxnsOf(blocks)) && TxnsOf(blocks) == {t, u} && t != u
    requires t.sender == u.sender && t.sender != t.receiver && t.sender != u.receiver && NoFeesAt(blocks, t.sender)
    ensures Sum(At(RoundArgs(blocks), t.sender), true) == t.amount + u.amount
    ensures Sum(At(RoundArgs(blocks), t.sender), false) == 0
  {
    RoundAt(blocks, t.sender);
    assert Party({t, u}, t.sender, true) == {t, u} && Party({t, u}, t.sender, false) == {};
    VolumesOfTwo(t, u);
  }

  lemma ReceiverSums(blocks: seq<ProposalBlock>, t: Txn, u: Txn)
    requires NoPanic(blocks) && DigestsIdentify(TxnsOf(blocks)) && TxnsOf(blocks) == {t, u} && t != u
    requires t.receiver !in {t.sender, u.sender, u.receiver} && NoFeesAt(blocks, t.receiver)
    ensures Sum(At(RoundArgs(blocks), t.receiver), true) == 0
    ensures Sum(At(RoundArgs(blocks), t.receiver), false) == t.amount
  {
    RoundAt(blocks, t.receiver);
    assert Party({t, u}, t.receiver, true) == {} && Party({t, u}, t.receiver, false) == {t};
    VolumesOfTwo(t, u);
  }

  lemma VolumesOfTwo(t: Txn, u: Txn)
    requires t != u
    ensures Volume({t}) == t.amount && Volume({u}) == u.amount && Volume({t, u}) == t.amount + u.amount
  {
    VolumeWithout({t}, t);
    assert {t} - {t} == {};
    VolumeWithout({u}, u);
    assert {u} - {u} == {};
    VolumeWithout({t, u}, t);
    assert {t, u} - {t} == {u};
  }

  function NewAccounts(addresses: set<Address>): Store {
    map a | a in addresses :: NEW_ACCOUNT
  }

  lemma ReceiverAccepted(blocks: seq<ProposalBlock>, a: Address)
    requires NoPanic(blocks) && Party(TxnsOf(blocks), a, true) == {}
    ensures Accepted(NEW_ACCOUNT, blocks, a)
  {
  }

  lemma SenderAccepted(blocks: seq<ProposalBlock>, t: Txn)
    requires NoPanic(blocks) && DigestsIdentify(TxnsOf(blocks)) && t in TxnsOf(blocks)
    requires Sum(At(RoundArgs(blocks), t.sender), true) == U128
    ensures Accepted(NEW_ACCOUNT, blocks, t.sender)
  {
    DebitsAt(blocks, t.sender);
    assert t in Party(TxnsOf(blocks), t.sender, true);
  }

  lemma OneCarry(us: set<UpdateArgs>, rest: set<Address>, s: Address)
    requires s !in rest && Sum(At(us, s), true) == U128 && Sum(At(us, s), false) == 0
    requires forall a <- rest :: Sum(At(us, a), true) == 0 && Sum(At(us, a), false) < U128
    ensures Carries(us, rest + {s}, true) == 1 && Carries(us, rest + {s}, false) == 0
  {
    CarriesMore(us, rest, s, true);
    CarriesMore(us, rest, s, false);
    NoCarry(us, rest, true);
    NoCarry(us, rest, false);
  }

  /** The sums of the round at the three addresses. */
  ghost predicate HalvesAt(us: set<UpdateArgs>, s: Address, p: Address, q: Address) {
    && Sum(At(us, s), true) == U128 && Sum(At(us, s), false) == 0
    && Sum(At(us, p), true) == 0 && Sum(At(us, p), false) == HALF
    && Sum(At(us, q), true) == 0 && Sum(At(us, q), false) == HALF
  }

  lemma HalvesSums(blocks: seq<ProposalBlock>, t: Txn, u: Txn)
    requires NoPanic(blocks) && DigestsIdentify(TxnsOf(blocks)) && TwoHalves(blocks, t, u)
    requires NoFeesAt(blocks, t.sender) && NoFeesAt(blocks, t.receiver) && NoFeesAt(blocks, u.receiver)
    ensures HalvesAt(RoundArgs(blocks), t.sender, t.receiver, u.receiver)
  {
    SenderSums(blocks, t, u);
    ReceiverSums(blocks, t, u);
    OtherReceiverSums(blocks, t, u);
  }

  lemma OtherReceiverSums(blocks: seq<ProposalBlock>, t: Txn, u: Txn)
    requires NoPanic(blocks) && DigestsIdentify(TxnsOf(blocks)) && TxnsOf(blocks) == {t, u} && t != u
    requires u.receiver !in {t.sender, u.sender, t.receiver} && NoFeesAt(blocks, u.receiver)
    ensures Sum(At(RoundArgs(blocks), u.receiver), true) == 0
    ensures Sum(At(RoundArgs(blocks), u.receiver), false) == u.amount
  {
    assert {t, u} == {u, t};
    ReceiverSums(blocks, u, t);
  }

  lemma HalvesAccepted(blocks: seq<ProposalBlock>, t: Txn, u: Txn, a: Address)
    requires NoPanic(blocks) && DigestsIdentify(TxnsOf(blocks)) && TwoHalves(blocks, t, u)
    requires HalvesAt(RoundArgs(blocks), t.sender, t.receiver, u.receiver)
    requires a in {t.receiver, u.receiver} + {t.sender}
    ensures Accepted(NEW_ACCOUNT, blocks, a)
  {
    if a == t.sender {
      SenderAccepted(blocks, t);
    } else {
      NothingSent(blocks, t, u);
      ReceiverAccepted(blocks, a);
    }
  }

  lemma HalvesTakePart(blocks: seq<ProposalBlock>, t: Txn, u: Txn)
    requires NoPanic(blocks) && DigestsIdentify(TxnsOf(blocks)) && TwoHalves(blocks, t, u)
    requires HalvesAt(RoundArgs(blocks), t.sender, t.receiver, u.receiver)
    ensures var all := {t.receiver, u.receiver} + {t.sender}; Participants(NewAccounts(all), blocks) == all
  {
    var all := {t.receiver, u.receiver} + {t.sender};
    forall a | a in all ensures Accepted(NEW_ACCOUNT, blocks, a) {
      HalvesAccepted(blocks, t, u, a);
    }
    NewParticipants(all, blocks);
  }

  lemma BothTakePart(before: Store, blocks: seq<ProposalBlock>, t: Txn, u: Txn)
    requires NoPanic(blocks) && TwoHalves(blocks, t, u)
    requires Participants(before, blocks) == {t.receiver, u.receiver} + {t.sender}
    ensures AllTakePart(before, blocks)
  {
  }

  lemma NothingSent(blocks: seq<ProposalBlock>, t: Txn, u: Txn)
    requires TxnsOf(blocks) == {t, u} && t.sender == u.sender && t.sender != t.receiver && t.sender != u.receiver
    ensures Party(TxnsOf(blocks), t.receiver, true) == {} && Party(TxnsOf(blocks), u.receiver, true) == {}
  {
  }

  lemma NewParticipants(all: set<Address>, blocks: seq<ProposalBlock>)
    requires NoPanic(blocks) && forall a <- all :: Accepted(NEW_ACCOUNT, blocks, a)
    ensures Participants(NewAccounts(all), blocks) == all
  {
  }

  lemma HalvesCarry(us: set<UpdateArgs>, s: Address, p: Address, q: Address)
    requires HalvesAt(us, s, p, q) && s != p && s != q
    ensures Carries(us, {p, q} + {s}, true) == 1 && Carries(us, {p, q} + {s}, false) == 0
  {
    OneCarry(us, {p, q}, s);
  }

  /** Value appears although everybody takes part: the sender's debits wrap around to
      nothing, while it lists the transactions as sent and the receivers gain 2^127 each. */
  lemma WrapAround(blocks: seq<ProposalBlock>, order: seq<UpdateArgs>, t: Txn, u: Txn)
    requires Round(blocks, order) && TwoHalves(blocks, t, u)
    requires NoFeesAt(blocks, t.sender) && NoFeesAt(blocks, t.receiver) && NoFeesAt(blocks, u.receiver)
    ensures var before := NewAccounts({t.receiver, u.receiver} + {t.sender});
            && AllTakePart(before, blocks)
            && Gained(before, order, true) == 0
            && Gained(before, order, false) - FeesGained(before, blocks) == U128
            && t.id in UpdatedAccounts(before, order)[t.sender].digests.sent
  {
    var before := NewAccounts({t.receiver, u.receiver} + {t.sender});
    HalvesSums(blocks, t, u);
    HalvesTakePart(blocks, t, u);
    BothTakePart(before, blocks, t, u);
    HalvesCarry(RoundArgs(blocks), t.sender, t.receiver, u.receiver);
    HalvesGain(before, blocks, order, t, u);
    HalvesListed(before, blocks, order, t, u);
  }

  lemma HalvesListed(before: Store, blocks: seq<ProposalBlock>, order: seq<UpdateArgs>, t: Txn, u: Txn)
    requires Round(blocks, order) && TwoHalves(blocks, t, u)
    requires HalvesAt(RoundArgs(blocks), t.sender, t.receiver, u.receiver)
    requires before == NewAccounts({t.receiver, u.receiver} + {t.sender})
    ensures t.id in UpdatedAccounts(before, order)[t.sender].digests.sent
  {
    HalvesAccepted(blocks, t, u, t.sender);
    SenderLists(blocks, order, t);
  }

  lemma HalvesGain(before: Store, blocks: seq<ProposalBlock>, order: seq<UpdateArgs>, t: Txn, u: Txn)
    requires Round(blocks, order) && TwoHalves(blocks, t, u) && AllTakePart(before, blocks)
    requires Wraps(before, blocks, true) == 1 && Wraps(before, blocks, false) == 0
    ensures Gained(before, order, true) == 0
    ensures Gained(before, order, false) - FeesGained(before, blocks) == U128
  {
    AllGain(before, blocks, order);
    HalvesVolume(blocks, t, u);
  }

  lemma HalvesVolume(blocks: seq<ProposalBlock>, t: Txn, u: Txn)
    requires TwoHalves(blocks, t, u)
    ensures Volume(TxnsOf(blocks)) == U128
  {
    VolumesOfTwo(t, u);
  }

  lemma SenderLists(blocks: seq<ProposalBlock>, order: seq<UpdateArgs>, t: Txn)
    requires Round(blocks, order) && t in TxnsOf(blocks) && Accepted(NEW_ACCOUNT, blocks, t.sender)
    ensures t.id in UpdatedAccount(NEW_ACCOUNT, Of(order, t.sender)).digests.sent
  {
    OwnUpdates(blocks, order, t.sender, Side(t, true));
    EffectOnAccount(NEW_ACCOUNT, blocks, order, t.sender);
    assert t in Party(TxnsOf(blocks), t.sender, true);
  }
}
