/** What a round's consolidated updates amount to: for every iteration order, an
    address is debited what it sent and credited what it received plus its fees. */
module Transfers {
  import opened Orders
  import opened Blocks
  import opened Accounts
  import opened Batch
  import opened RoundUpdates

  // ---- Sums over sets of updates ------------------------------------------

  function Part(u: UpdateArgs, debit: bool): nat {
    Amount(if debit then u.debits else u.credits)
  }

  ghost function Sum(us: set<UpdateArgs>, debit: bool): nat {
    if us == {} then 0 else var u :| u in us; Part(u, debit) + Sum(us - {u}, debit)
  }

  lemma {:induction false} SumWithout(us: set<UpdateArgs>, debit: bool, u: UpdateArgs)
    requires u in us
    ensures Sum(us, debit) == Part(u, debit) + Sum(us - {u}, debit)
  {
    var v :| v in us && Sum(us, debit) == Part(v, debit) + Sum(us - {v}, debit);
    if u != v {
      SumWithout(us - {v}, debit, u);
      SumWithout(us - {u}, debit, v);
      assert us - {u} - {v} == us - {v} - {u};
    }
  }

  lemma {:induction false} SumDisjoint(us: set<UpdateArgs>, vs: set<UpdateArgs>, debit: bool)
    requires us !! vs
    ensures Sum(us + vs, debit) == Sum(us, debit) + Sum(vs, debit)
  {
    if us == {} {
      assert us + vs == vs;
    } else {
      var u :| u in us;
      SumWithout(us, debit, u);
      SumWithout(us + vs, debit, u);
      SumDisjoint(us - {u}, vs, debit);
      assert us + vs - {u} == us - {u} + vs;
    }
  }

  lemma {:induction false} SumNothing(us: set<UpdateArgs>, debit: bool)
    requires forall u <- us :: Part(u, debit) == 0
    ensures Sum(us, debit) == 0
  {
    if us != {} {
      var u :| u in us;
      SumWithout(us, debit, u);
      SumNothing(us - {u}, debit);
    }
  }

  function Elements(us: seq<UpdateArgs>): set<UpdateArgs> {
    set u | u in us
  }

  lemma {:induction false} TotalsAreSums(us: seq<UpdateArgs>)
    requires NoDuplicates(us)
    ensures Amount(Totals(us).credits) == Sum(Elements(us), false)
    ensures Amount(Totals(us).debits) == Sum(Elements(us), true)
  {
    if us != [] {
      var before, last := us[..|us| - 1], us[|us| - 1];
      TotalsAreSums(before);
      assert us == before + [last];
      assert Elements(us) - {last} == Elements(before);
      SumWithout(Elements(us), true, last);
      SumWithout(Elements(us), false, last);
    }
  }

  lemma {:induction false} OfElements(us: seq<UpdateArgs>, a: Address)
    requires NoDuplicates(us)
    ensures NoDuplicates(Of(us, a))
    ensures forall u :: u in Of(us, a) <==> u in us && u.address == a
  {
    if us != [] {
      var before, last := us[..|us| - 1], us[|us| - 1];
      OfElements(before, a);
      assert us == before + [last];
    }
  }

  // ---- Sums over transactions ---------------------------------------------

  ghost function Volume(ts: set<Txn>): nat {
    if ts == {} then 0 else var t :| t in ts; t.amount + Volume(ts - {t})
  }

  lemma {:induction false} VolumeWithout(ts: set<Txn>, t: Txn)
    requires t in ts
    ensures Volume(ts) == t.amount + Volume(ts - {t})
  {
    var v :| v in ts && Volume(ts) == v.amount + Volume(ts - {v});
    if t != v {
      VolumeWithout(ts - {v}, t);
      VolumeWithout(ts - {t}, v);
      assert ts - {t} - {v} == ts - {v} - {t};
    }
  }

  /** A digest identifies a transaction. */
  ghost predicate DigestsIdentify(ts: set<Txn>) {
    forall t, u :: t in ts && u in ts && t.id == u.id ==> t == u
  }

  /** The sender's update of a transaction, or the receiver's. */
  function Side(t: Txn, debit: bool): UpdateArgs {
    ToArgs(if debit then SenderUpdate(t) else ReceiverUpdate(t))
  }

  function Sides(ts: set<Txn>, debit: bool): set<UpdateArgs> {
    set t | t in ts :: Side(t, debit)
  }

  lemma SideIdentifies(t: Txn, u: Txn, debit: bool)
    requires Side(t, debit) == Side(u, debit)
    ensures t.id == u.id
  {
    var ds := Side(u, debit).digests.value;
    assert t.id in ds.sent + ds.recv;
  }

  lemma SidesWithout(ts: set<Txn>, t: Txn, debit: bool)
    requires DigestsIdentify(ts) && t in ts
    ensures Sides(ts, debit) - {Side(t, debit)} == Sides(ts - {t}, debit)
  {
    forall u | u in ts && u != t ensures Side(u, debit) != Side(t, debit) {
      if Side(u, debit) == Side(t, debit) {
        SideIdentifies(u, t, debit);
      }
    }
  }

  /** The senders' updates carry each transaction's amount once, as debits only; the
      receivers' updates carry it once, as credits only. */
  lemma {:induction false} SidesVolume(ts: set<Txn>, debit: bool)
    requires DigestsIdentify(ts)
    ensures Sum(Sides(ts, debit), debit) == Volume(ts) && Sum(Sides(ts, debit), !debit) == 0
  {
    SumNothing(Sides(ts, debit), !debit);
    if ts == {} {
      assert Sides(ts, debit) == {};
    } else {
      var t :| t in ts;
      SidesVolume(ts - {t}, debit);
      VolumeWithout(ts, t);
      SidesWithout(ts, t, debit);
      SumWithout(Sides(ts, debit), debit, Side(t, debit));
    }
  }

  // ---- A round ------------------------------------------------------------

  function TxnsOf(blocks: seq<ProposalBlock>): set<Txn> {
    set b, d | b in blocks && d in b.txns :: b.txns[d]
  }

  ghost predicate NoPanic(blocks: seq<ProposalBlock>) {
    forall b <- blocks :: !BlockPanics(b)
  }

  /** The set `get_update_list` collects from the round's blocks. */
  ghost function RoundUpdatesOf(blocks: seq<ProposalBlock>): set<StateUpdate>
    requires NoPanic(blocks)
  {
    set b, u | b in blocks && u in BlockUpdates(b) :: u
  }

  /** `get_update_args`: updates that differ only in their token fall together. */
  ghost function RoundArgs(blocks: seq<ProposalBlock>): set<UpdateArgs>
    requires NoPanic(blocks)
  {
    set u | u in RoundUpdatesOf(blocks) :: ToArgs(u)
  }

  /** The fee updates: they alone carry no digests. */
  function FeesIn(us: set<UpdateArgs>): set<UpdateArgs> {
    set u | u in us && u.digests.None?
  }

  lemma UpdateOrigin(blocks: seq<ProposalBlock>, u: StateUpdate)
    requires NoPanic(blocks) && u in RoundUpdatesOf(blocks)
    ensures || u.updateAccount == Fee
            || exists t :: t in TxnsOf(blocks) && (u == SenderUpdate(t) || u == ReceiverUpdate(t))
  {
    var b :| b in blocks && u in BlockUpdates(b);
    if u.updateAccount != Fee {
      var d := OriginInBlock(b, u);
      assert b.txns[d] in TxnsOf(blocks);
    }
  }

  lemma OriginInBlock(b: ProposalBlock, u: StateUpdate) returns (d: Digest)
    requires !BlockPanics(b) && u in BlockUpdates(b) && u.updateAccount != Fee
    ensures d in b.txns && (u == SenderUpdate(b.txns[d]) || u == ReceiverUpdate(b.txns[d]))
  {
    d :| d in b.txns && u in TxnUpdates(b.txns[d]);
  }

  lemma TxnIsUpdated(blocks: seq<ProposalBlock>, t: Txn)
    requires NoPanic(blocks) && t in TxnsOf(blocks)
    ensures SenderUpdate(t) in RoundUpdatesOf(blocks) && ReceiverUpdate(t) in RoundUpdatesOf(blocks)
  {
    var b, d :| b in blocks && d in b.txns && b.txns[d] == t;
    assert SenderUpdate(t) in TxnUpdates(b.txns[d]) && ReceiverUpdate(t) in TxnUpdates(b.txns[d]);
    assert SenderUpdate(t) in BlockUpdates(b) && ReceiverUpdate(t) in BlockUpdates(b);
  }

  /** The updates of a round are the two sides of its transactions and the fees. */
  lemma RoundArgsSplit(blocks: seq<ProposalBlock>)
    requires NoPanic(blocks)
    ensures var us, ts := RoundArgs(blocks), TxnsOf(blocks);
            us == Sides(ts, true) + Sides(ts, false) + FeesIn(us)
  {
    var us, ts := RoundArgs(blocks), TxnsOf(blocks);
    forall w | w in us && w !in FeesIn(us) ensures w in Sides(ts, true) + Sides(ts, false) {
      var u :| u in RoundUpdatesOf(blocks) && ToArgs(u) == w;
      UpdateOrigin(blocks, u);
    }
    forall t | t in ts ensures Side(t, true) in us && Side(t, false) in us {
      TxnIsUpdated(blocks, t);
    }
  }

  // ---- Conservation -------------------------------------------------------

  function At(us: set<UpdateArgs>, a: Address): set<UpdateArgs> {
    set u | u in us && u.address == a
  }

  /** The transactions an address sent, or received. */
  function Party(ts: set<Txn>, a: Address, debit: bool): set<Txn> {
    set t | t in ts && (if debit then t.sender else t.receiver) == a
  }

  lemma SidesAt(ts: set<Txn>, a: Address, debit: bool)
    ensures At(Sides(ts, debit), a) == Sides(Party(ts, a, debit), debit)
  {
    forall t | t in ts && Side(t, debit).address == a ensures t in Party(ts, a, debit) { }
  }

  /** Three-way sum over the sides of some transactions and some fees. */
  lemma SumOfSides(sent: set<Txn>, received: set<Txn>, fees: set<UpdateArgs>)
    requires DigestsIdentify(sent) && DigestsIdentify(received)
    requires forall u <- fees :: u.digests.None? && u.debits.None?
    ensures var us := Sides(sent, true) + Sides(received, false) + fees;
            Sum(us, true) == Volume(sent) && Sum(us, false) == Volume(received) + Sum(fees, false)
  {
    var s, r := Sides(sent, true), Sides(received, false);
    SidesVolume(sent, true);
    SidesVolume(received, false);
    SumNothing(fees, true);
    SumDisjoint(s, r, true);
    SumDisjoint(s, r, false);
    SumDisjoint(s + r, fees, true);
    SumDisjoint(s + r, fees, false);
  }

  lemma FeesHaveNoDebits(blocks: seq<ProposalBlock>)
    requires NoPanic(blocks)
    ensures forall u <- FeesIn(RoundArgs(blocks)) :: u.debits.None?
  {
    forall w | w in FeesIn(RoundArgs(blocks)) ensures w.debits.None? {
      var u :| u in RoundUpdatesOf(blocks) && ToArgs(u) == w;
    }
  }

  lemma RoundAt(blocks: seq<ProposalBlock>, a: Address)
    requires NoPanic(blocks) && DigestsIdentify(TxnsOf(blocks))
    ensures var us, ts := RoundArgs(blocks), TxnsOf(blocks);
            && Sum(At(us, a), true) == Volume(Party(ts, a, true))
            && Sum(At(us, a), false) == Volume(Party(ts, a, false)) + Sum(At(FeesIn(us), a), false)
  {
    var us, ts := RoundArgs(blocks), TxnsOf(blocks);
    RoundArgsSplit(blocks);
    FeesHaveNoDebits(blocks);
    SidesAt(ts, a, true);
    SidesAt(ts, a, false);
    assert At(us, a) == At(Sides(ts, true), a) + At(Sides(ts, false), a) + At(FeesIn(us), a);
    SumOfSides(Party(ts, a, true), Party(ts, a, false), At(FeesIn(us), a));
  }

  /** The distinct transactions an address sent, as a 128-bit sum. */
  ghost function Debited(blocks: seq<ProposalBlock>, a: Address): u128 {
    Volume(Party(TxnsOf(blocks), a, true)) % U128
  }

  /** The distinct transactions an address received and its deduplicated fees, as a 128-bit sum. */
  ghost function CreditedTo(blocks: seq<ProposalBlock>, a: Address): u128
    requires NoPanic(blocks)
  {
    (Volume(Party(TxnsOf(blocks), a, false)) + Sum(At(FeesIn(RoundArgs(blocks)), a), false)) % U128
  }

  lemma DebitsAt(blocks: seq<ProposalBlock>, a: Address)
    requires NoPanic(blocks) && DigestsIdentify(TxnsOf(blocks))
    ensures Sum(At(RoundArgs(blocks), a), true) % U128 == Debited(blocks, a)
  {
    RoundAt(blocks, a);
  }

  lemma CreditsAt(blocks: seq<ProposalBlock>, a: Address)
    requires NoPanic(blocks) && DigestsIdentify(TxnsOf(blocks))
    ensures Sum(At(RoundArgs(blocks), a), false) % U128 == CreditedTo(blocks, a)
  {
    RoundAt(blocks, a);
  }

  lemma ConsolidatedSum(order: seq<UpdateArgs>, a: Address, debit: bool)
    requires NoDuplicates(order) && Of(order, a) != []
    ensures Part(Consolidated(Of(order, a)), debit) == Sum(At(Elements(order), a), debit) % U128
  {
    var mine := Of(order, a);
    OfElements(order, a);
    ConsolidatedIsTotal(mine);
    TotalsAreSums(mine);
    assert Elements(mine) == At(Elements(order), a);
  }

  lemma AddressDebits(blocks: seq<ProposalBlock>, order: seq<UpdateArgs>, a: Address)
    requires NoPanic(blocks) && DigestsIdentify(TxnsOf(blocks)) && Enumerates(order, RoundArgs(blocks))
    requires Of(order, a) != []
    ensures Amount(Consolidated(Of(order, a)).debits) == Debited(blocks, a)
  {
    EnumeratedSum(order, RoundArgs(blocks), a, true);
    DebitsAt(blocks, a);
  }

  lemma AddressCredits(blocks: seq<ProposalBlock>, order: seq<UpdateArgs>, a: Address)
    requires NoPanic(blocks) && DigestsIdentify(TxnsOf(blocks)) && Enumerates(order, RoundArgs(blocks))
    requires Of(order, a) != []
    ensures Amount(Consolidated(Of(order, a)).credits) == CreditedTo(blocks, a)
  {
    EnumeratedSum(order, RoundArgs(blocks), a, false);
    CreditsAt(blocks, a);
  }

  /** For every iteration order, an address's consolidated debits are the amounts of
      the distinct transactions it sent, and its credits the amounts of those it
      received plus its deduplicated fee updates, as 128-bit sums. */
  lemma AddressTotals(blocks: seq<ProposalBlock>, order: seq<UpdateArgs>, a: Address)
    requires NoPanic(blocks) && DigestsIdentify(TxnsOf(blocks)) && Enumerates(order, RoundArgs(blocks))
    requires Of(order, a) != []
    ensures Amount(Consolidated(Of(order, a)).debits) == Debited(blocks, a)
    ensures Amount(Consolidated(Of(order, a)).credits) == CreditedTo(blocks, a)
  {
    AddressDebits(blocks, order, a);
    AddressCredits(blocks, order, a);
  }

  lemma EnumeratedSum(order: seq<UpdateArgs>, us: set<UpdateArgs>, a: Address, debit: bool)
    requires Enumerates(order, us) && Of(order, a) != []
    ensures Amount(if debit then Consolidated(Of(order, a)).debits else Consolidated(Of(order, a)).credits)
         == Sum(At(us, a), debit) % U128
  {
    assert Elements(order) == us;
    ConsolidatedSum(order, a, debit);
  }

  /** Transfers conserve value: all debits of a round together equal the amounts of
      its distinct transactions, and so do all its credits other than fees, however
      many blocks a transaction occurs in. */
  lemma TransferConservation(blocks: seq<ProposalBlock>)
    requires NoPanic(blocks) && DigestsIdentify(TxnsOf(blocks))
    ensures var us := RoundArgs(blocks);
            Sum(us, true) == Volume(TxnsOf(blocks)) == Sum(us - FeesIn(us), false)
  {
    var us, ts := RoundArgs(blocks), TxnsOf(blocks);
    RoundArgsSplit(blocks);
    FeesHaveNoDebits(blocks);
    SumOfSides(ts, ts, FeesIn(us));
    SumOfSides(ts, ts, {});
    assert us - FeesIn(us) == Sides(ts, true) + Sides(ts, false) + {};
    assert Sum({}, false) == 0;
  }

  // ---- The consolidated map as a whole ------------------------------------

  ghost function SumOver(m: map<Address, int>): int {
    if m == map[] then 0 else var a :| a in m; m[a] + SumOver(m - {a})
  }

  function AtAny(us: set<UpdateArgs>, addresses: set<Address>): set<UpdateArgs> {
    set u | u in us && u.address in addresses
  }

  /** How often the sums of the addresses wrap around, all together. */
  ghost function Carries(us: set<UpdateArgs>, addresses: set<Address>, debit: bool): nat {
    if addresses == {} then 0
    else var a :| a in addresses; Sum(At(us, a), debit) / U128 + Carries(us, addresses - {a}, debit)
  }

  lemma {:induction false} CarriesWithout(us: set<UpdateArgs>, addresses: set<Address>, debit: bool, a: Address)
    requires a in addresses
    ensures Carries(us, addresses, debit) == Sum(At(us, a), debit) / U128 + Carries(us, addresses - {a}, debit)
  {
    var b :| b in addresses
      && Carries(us, addresses, debit) == Sum(At(us, b), debit) / U128 + Carries(us, addresses - {b}, debit);
    if a != b {
      CarriesWithout(us, addresses - {b}, debit, a);
      CarriesWithout(us, addresses - {a}, debit, b);
      assert addresses - {a} - {b} == addresses - {b} - {a};
    }
  }

  /** Nothing wraps exactly if no address's own sum reaches 2^128. */
  lemma {:induction false} NoCarry(us: set<UpdateArgs>, addresses: set<Address>, debit: bool)
    ensures Carries(us, addresses, debit) == 0 <==> forall a <- addresses :: Sum(At(us, a), debit) < U128
  {
    if addresses != {} {
      var a :| a in addresses;
      CarriesWithout(us, addresses, debit, a);
      NoCarry(us, addresses - {a}, debit);
      assert addresses == addresses - {a} + {a};
    }
  }

  lemma AtAnyMore(us: set<UpdateArgs>, rest: set<Address>, a: Address, debit: bool)
    requires a !in rest
    ensures Sum(AtAny(us, rest + {a}), debit) == Sum(At(us, a), debit) + Sum(AtAny(us, rest), debit)
  {
    SumDisjoint(At(us, a), AtAny(us, rest), debit);
    assert AtAny(us, rest + {a}) == At(us, a) + AtAny(us, rest);
  }

  lemma CarriesMore(us: set<UpdateArgs>, rest: set<Address>, a: Address, debit: bool)
    requires a !in rest
    ensures Carries(us, rest + {a}, debit) == Sum(At(us, a), debit) / U128 + Carries(us, rest, debit)
  {
    CarriesWithout(us, rest + {a}, debit, a);
    assert rest + {a} - {a} == rest;
  }

  /** Sums of single addresses that wrap, added up over the addresses that take part,
      are the true sum less 2^128 for every wrap-around. */
  lemma {:induction false} WrappedTotals(
    m: map<Address, int>, part: set<Address>, us: set<UpdateArgs>, debit: bool)
    requires forall a <- m :: m[a] == if a in part then Sum(At(us, a), debit) % U128 else 0
    ensures SumOver(m) + U128 * Carries(us, m.Keys * part, debit) == Sum(AtAny(us, m.Keys * part), debit)
  {
    if m == map[] {
      assert AtAny(us, {}) == {};
    } else {
      var a :| a in m && SumOver(m) == m[a] + SumOver(m - {a});
      WrappedTotals(m - {a}, part, us, debit);
      var rest := (m - {a}).Keys * part;
      if a in part {
        assert m.Keys * part == rest + {a};
        AtAnyMore(us, rest, a, debit);
        CarriesMore(us, rest, a, debit);
      } else {
        assert m.Keys * part == rest;
      }
    }
  }

  function Parts(m: map<Address, UpdateArgs>, debit: bool): map<Address, int> {
    map a | a in m :: Part(m[a], debit)
  }

  /** Consolidation moves no value: the consolidated updates together carry what the
      single updates carried, less 2^128 for every wrap-around of an address's sum. */
  lemma ConsolidationKeepsSums(order: seq<UpdateArgs>, m: map<Address, UpdateArgs>, debit: bool)
    requires NoDuplicates(order)
    requires forall a <- m :: Of(order, a) != [] && m[a] == Consolidated(Of(order, a))
    ensures SumOver(Parts(m, debit)) + U128 * Carries(Elements(order), m.Keys, debit) ==
            Sum(AtAny(Elements(order), m.Keys), debit)
  {
    forall a <- m ensures Parts(m, debit)[a] == Sum(At(Elements(order), a), debit) % U128 {
      ConsolidatedSum(order, a, debit);
    }
    WrappedTotals(Parts(m, debit), m.Keys, Elements(order), debit);
    assert Parts(m, debit).Keys * m.Keys == m.Keys;
  }

  lemma EveryAddressIsIn(order: seq<UpdateArgs>, m: map<Address, UpdateArgs>)
    requires NoDuplicates(order) && forall a :: a in m <==> Of(order, a) != []
    ensures AtAny(Elements(order), m.Keys) == Elements(order)
  {
    forall u | u in order ensures u.address in m {
      OfElements(order, u.address);
      assert u in At(Elements(order), u.address);
    }
  }

  /** Conservation reaches the map `consolidate_update_args` returns: its debits together
      are the volume of the round's distinct transactions, and its credits that volume
      and the deduplicated fees, each less 2^128 for every wrap-around. */
  lemma ConsolidatedConservation(blocks: seq<ProposalBlock>, order: seq<UpdateArgs>, m: map<Address, UpdateArgs>)
    requires NoPanic(blocks) && DigestsIdentify(TxnsOf(blocks)) && Enumerates(order, RoundArgs(blocks))
    requires forall a :: a in m <==> Of(order, a) != []
    requires forall a <- m :: m[a] == Consolidated(Of(order, a))
    ensures var us, volume := RoundArgs(blocks), Volume(TxnsOf(blocks));
            && SumOver(Parts(m, true)) + U128 * Carries(us, m.Keys, true) == volume
            && SumOver(Parts(m, false)) + U128 * Carries(us, m.Keys, false) == volume + Sum(FeesIn(us), false)
  {
    var us := RoundArgs(blocks);
    assert Elements(order) == us;
    EveryAddressIsIn(order, m);
    CreditsOfRound(blocks);
    ConsolidationKeepsSums(order, m, true);
    ConsolidationKeepsSums(order, m, false);
  }

  lemma CreditsOfRound(blocks: seq<ProposalBlock>)
    requires NoPanic(blocks) && DigestsIdentify(TxnsOf(blocks))
    ensures var us := RoundArgs(blocks);
            && Sum(us, true) == Volume(TxnsOf(blocks))
            && Sum(us, false) == Volume(TxnsOf(blocks)) + Sum(FeesIn(us), false)
  {
    var us := RoundArgs(blocks);
    TransferConservation(blocks);
    SumDisjoint(us - FeesIn(us), FeesIn(us), false);
    assert us - FeesIn(us) + FeesIn(us) == us;
  }

  /** The transactions sent, or received, by any of the addresses. */
  function PartyAny(ts: set<Txn>, addresses: set<Address>, debit: bool): set<Txn> {
    set t | t in ts && (if debit then t.sender else t.receiver) in addresses
  }

  lemma SidesAtAny(ts: set<Txn>, addresses: set<Address>, debit: bool)
    ensures AtAny(Sides(ts, debit), addresses) == Sides(PartyAny(ts, addresses, debit), debit)
  {
    forall t | t in ts && Side(t, debit).address in addresses ensures t in PartyAny(ts, addresses, debit) { }
  }

  /** The updates of some addresses carry what they sent, what they received and their fees. */
  lemma RoundAtAny(blocks: seq<ProposalBlock>, addresses: set<Address>)
    requires NoPanic(blocks) && DigestsIdentify(TxnsOf(blocks))
    ensures var us, ts := RoundArgs(blocks), TxnsOf(blocks);
            && Sum(AtAny(us, addresses), true) == Volume(PartyAny(ts, addresses, true))
            && Sum(AtAny(us, addresses), false) ==
               Volume(PartyAny(ts, addresses, false)) + Sum(AtAny(FeesIn(us), addresses), false)
  {
    var us, ts := RoundArgs(blocks), TxnsOf(blocks);
    RoundArgsSplit(blocks);
    FeesHaveNoDebits(blocks);
    SidesAtAny(ts, addresses, true);
    SidesAtAny(ts, addresses, false);
    assert AtAny(us, addresses)
        == AtAny(Sides(ts, true), addresses) + AtAny(Sides(ts, false), addresses) + AtAny(FeesIn(us), addresses);
    SumOfSides(PartyAny(ts, addresses, true), PartyAny(ts, addresses, false), AtAny(FeesIn(us), addresses));
  }
}
