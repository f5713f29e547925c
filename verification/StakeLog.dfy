/** A claim's stake and its log of stake transactions (`claim.rs`). */
module StakeLog {
  import opened Options
  import opened Blocks

  datatype StakeUpdate = Add(amount: u128) | Withdrawal(amount: u128) | Slash(pct: nat)

  datatype Stake = Stake(from: Address, amount: StakeUpdate, certified: bool)

  datatype StakeError = NotIntendedReceiver | UncertifiedStake

  /** The slashed value; the source computes it in floating point.  Nothing below
      depends on which function it is. */
  type Slasher = (nat, u128) -> u128

  /** One step of the fold: additions that overflow and withdrawals that exceed the
      stake change nothing. */
  function StepStake(slash: Slasher, stake: u128, u: StakeUpdate): u128 {
    match u
    case Add(v) => if stake + v < U128 then stake + v else stake
    case Withdrawal(v) => if v <= stake then stake - v else stake
    case Slash(pct) => slash(pct, stake)
  }

  /** `check_stake_utxo`: the fold of the whole log. */
  function Fold(slash: Slasher, log: seq<Stake>): u128 {
    if log == [] then 0 else StepStake(slash, Fold(slash, log[..|log| - 1]), log[|log| - 1].amount)
  }

  /** Every entry changed the stake when it was recorded. */
  ghost predicate EveryEntryCounts(slash: Slasher, log: seq<Stake>) {
    forall i :: 0 <= i < |log| ==> Fold(slash, log[..i + 1]) != Fold(slash, log[..i])
  }

  class StakedClaim {
    const address: Address
    const slash: Slasher
    var stake: u128
    var stakeTxns: seq<Stake>
    ghost var calls: seq<Stake>

    /** The cached stake is the fold of the log, and the log is the one a run of
        calls leaves behind. */
    ghost predicate Valid()
      reads this
    {
      stake == Fold(slash, stakeTxns) && stakeTxns == LogAfter(slash, address, calls)
    }

    constructor (address: Address, slash: Slasher)
      ensures Valid() && calls == [] && stake == 0 && this.address == address && this.slash == slash
    {
      this.address, this.slash, this.stake, this.stakeTxns, this.calls := address, slash, 0, [], [];
    }

    method CheckStakeUtxo() returns (acc: u128)
      ensures acc == Fold(slash, stakeTxns)
    {
      acc := 0;
      for i := 0 to |stakeTxns|
        invariant acc == Fold(slash, stakeTxns[..i])
      {
        assert stakeTxns[..i + 1][..i] == stakeTxns[..i];
        acc := StepStake(slash, acc, stakeTxns[i].amount);
      }
      assert stakeTxns[..|stakeTxns|] == stakeTxns;
    }

    /** The source pushes the transaction, folds the whole log again and pops the
        transaction if nothing changed; that is one step from the previous stake. */
    method UpdateStake(txn: Stake) returns (error: Option<StakeError>)
      requires Valid()
      modifies this
      ensures Valid() && calls == old(calls) + [txn]
      ensures EveryEntryCounts(slash, stakeTxns) && stake == Incremental(slash, address, calls)
      ensures error == if txn.from != address then Some(NotIntendedReceiver)
                       else if !txn.certified then Some(UncertifiedStake) else None
      ensures error.Some? ==> stake == old(stake)
      ensures error.None? ==> stake == match txn.amount
                                       case Add(v) => if old(stake) + v < U128 then old(stake) + v else old(stake)
                                       case Withdrawal(v) => if v <= old(stake) then old(stake) - v else old(stake)
                                       case Slash(pct) => slash(pct, old(stake))
      ensures stakeTxns == if stake == old(stake) then old(stakeTxns) else old(stakeTxns) + [txn]
    {
      calls := calls + [txn];
      assert calls[..|calls| - 1] == old(calls);
      LogReplays(slash, address, calls);
      if txn.from != address {
        return Some(NotIntendedReceiver);
      }
      if !txn.certified {
        return Some(UncertifiedStake);
      }
      var prevStake := stake;
      stakeTxns := stakeTxns + [txn];
      assert stakeTxns[..|stakeTxns| - 1] == old(stakeTxns);
      stake := CheckStakeUtxo();
      if stake == prevStake {
        stakeTxns := stakeTxns[..|stakeTxns| - 1];
      }
      error := None;
    }
  }

  lemma KeepsCounting(slash: Slasher, log: seq<Stake>, txn: Stake)
    requires EveryEntryCounts(slash, log) && Fold(slash, log + [txn]) != Fold(slash, log)
    ensures EveryEntryCounts(slash, log + [txn])
  {
    var more := log + [txn];
    forall i | 0 <= i < |more| ensures Fold(slash, more[..i + 1]) != Fold(slash, more[..i]) {
      if i < |log| {
        assert more[..i + 1] == log[..i + 1] && more[..i] == log[..i];
      } else {
        assert more[..i + 1] == more && more[..i] == log;
      }
    }
  }

  // ---- Runs of calls ------------------------------------------------------

  predicate Takes(address: Address, txn: Stake) {
    txn.from == address && txn.certified
  }

  /** The stake after a run of calls, one incremental step per accepted call. */
  function Incremental(slash: Slasher, address: Address, txns: seq<Stake>): u128 {
    if txns == [] then 0
    else
      var before, last := Incremental(slash, address, txns[..|txns| - 1]), txns[|txns| - 1];
      if Takes(address, last) then StepStake(slash, before, last.amount) else before
  }

  /** The log after a run of calls, as `update_stake` keeps it. */
  function LogAfter(slash: Slasher, address: Address, txns: seq<Stake>): seq<Stake> {
    if txns == [] then []
    else
      var before, last := LogAfter(slash, address, txns[..|txns| - 1]), txns[|txns| - 1];
      if Takes(address, last) && Fold(slash, before + [last]) != Fold(slash, before) then before + [last] else before
  }

  /** For every run of calls and every slash function: folding the kept log gives the
      stake reached by single steps, and every kept entry changed the stake. */
  lemma {:induction false} LogReplays(slash: Slasher, address: Address, txns: seq<Stake>)
    ensures Fold(slash, LogAfter(slash, address, txns)) == Incremental(slash, address, txns)
    ensures EveryEntryCounts(slash, LogAfter(slash, address, txns))
  {
    if txns != [] {
      var init, last := txns[..|txns| - 1], txns[|txns| - 1];
      LogReplays(slash, address, init);
      var before := LogAfter(slash, address, init);
      assert (before + [last])[..|before|] == before;
      if Takes(address, last) && Fold(slash, before + [last]) != Fold(slash, before) {
        KeepsCounting(slash, before, last);
      }
    }
  }

  // ---- The log as a balance -----------------------------------------------

  function Deposited(log: seq<Stake>): nat {
    if log == [] then 0
    else Deposited(log[..|log| - 1]) + (if log[|log| - 1].amount.Add? then log[|log| - 1].amount.amount else 0)
  }

  function Withdrawn(log: seq<Stake>): nat {
    if log == [] then 0
    else Withdrawn(log[..|log| - 1]) + (if log[|log| - 1].amount.Withdrawal? then log[|log| - 1].amount.amount else 0)
  }

  ghost predicate NoSlash(log: seq<Stake>) {
    forall e <- log :: !e.amount.Slash?
  }

  /** A log in which every entry counts and nothing is a slash balances: what was deposited
      is what is staked and what was withdrawn. */
  lemma {:induction false} KeptLogBalances(slash: Slasher, log: seq<Stake>)
    requires EveryEntryCounts(slash, log) && NoSlash(log)
    ensures Fold(slash, log) + Withdrawn(log) == Deposited(log)
  {
    if log != [] {
      var last := |log| - 1;
      assert log[..last + 1] == log && log[last] in log;
      FewerCount(slash, log, last);
      KeptLogBalances(slash, log[..last]);
    }
  }

  lemma FewerCount(slash: Slasher, log: seq<Stake>, n: nat)
    requires EveryEntryCounts(slash, log) && n <= |log|
    ensures EveryEntryCounts(slash, log[..n])
  {
    forall i | 0 <= i < n ensures Fold(slash, log[..n][..i + 1]) != Fold(slash, log[..n][..i]) {
      assert log[..n][..i + 1] == log[..i + 1] && log[..n][..i] == log[..i];
    }
  }

  /** Over every run of calls without slashes, the stake is what the kept deposits add up
      to less the kept withdrawals. */
  lemma StakeBalances(slash: Slasher, address: Address, txns: seq<Stake>)
    requires NoSlash(txns)
    ensures var log := LogAfter(slash, address, txns);
            Incremental(slash, address, txns) + Withdrawn(log) == Deposited(log)
  {
    LogReplays(slash, address, txns);
    LogIsSelected(slash, address, txns);
    KeptLogBalances(slash, LogAfter(slash, address, txns));
  }

  lemma {:induction false} LogIsSelected(slash: Slasher, address: Address, txns: seq<Stake>)
    ensures forall e <- LogAfter(slash, address, txns) :: e in txns
  {
    if txns != [] {
      LogIsSelected(slash, address, txns[..|txns| - 1]);
    }
  }

  /** Which accepted entries the log does not keep: deposits and withdrawals of nothing,
      deposits with which the stake would reach 2^128, withdrawals of more than the
      stake, and slashes without effect. */
  lemma DroppedExactly(slash: Slasher, address: Address, txns: seq<Stake>, txn: Stake)
    requires txn.from == address && txn.certified
    ensures var before, stake := LogAfter(slash, address, txns), Incremental(slash, address, txns);
            LogAfter(slash, address, txns + [txn]) == before <==>
              match txn.amount
              case Add(v) => v == 0 || stake + v >= U128
              case Withdrawal(v) => v == 0 || v > stake
              case Slash(pct) => slash(pct, stake) == stake
  {
    var before := LogAfter(slash, address, txns);
    LogReplays(slash, address, txns);
    FoldStep(slash, before, txn);
    NextLog(slash, address, txns, txn);
    assert |before + [txn]| != |before|;
  }

  lemma FoldStep(slash: Slasher, log: seq<Stake>, txn: Stake)
    ensures Fold(slash, log + [txn]) == StepStake(slash, Fold(slash, log), txn.amount)
  {
    assert (log + [txn])[..|log|] == log;
  }

  lemma NextLog(slash: Slasher, address: Address, txns: seq<Stake>, txn: Stake)
    requires Takes(address, txn)
    ensures var before := LogAfter(slash, address, txns);
            LogAfter(slash, address, txns + [txn]) ==
            if Fold(slash, before + [txn]) != Fold(slash, before) then before + [txn] else before
  {
    assert (txns + [txn])[..|txns|] == txns;
  }
}
