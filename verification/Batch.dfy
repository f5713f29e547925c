/** Batching account updates: the consolidated update of `consolidate_update_args`
    against the same updates applied one at a time. */
module Batch {
  import opened Options
  import opened Blocks
  import opened Accounts

  // ---- Merging two updates ------------------------------------------------

  function MaxNonce(a: Option<u128>, b: Option<u128>): Option<u128> {
    if a.None? then b else if b.None? || b.value <= a.value then a else b
  }

  /** `a + b` on u128, which wraps. */
  function AddWrapping(a: Option<u128>, b: Option<u128>): Option<u128> {
    if a.Some? && b.Some? then Some((a.value + b.value) % U128) else if b.None? then a else b
  }

  function JoinDigests(a: Option<Digests>, b: Option<Digests>): Option<Digests> {
    if a.Some? && b.Some? then Some(ExtendAll(a.value, b.value)) else if b.None? then a else b
  }

  /** `existing` after `update` has been folded into it. */
  function Merge(existing: UpdateArgs, update: UpdateArgs): UpdateArgs {
    UpdateArgs(existing.address, MaxNonce(existing.nonce, update.nonce),
               AddWrapping(existing.credits, update.credits), AddWrapping(existing.debits, update.debits),
               update.storage, update.code, JoinDigests(existing.digests, update.digests))
  }

  /** The entry of one address after its updates arrived in this order. */
  function Consolidated(us: seq<UpdateArgs>): UpdateArgs
    requires us != []
  {
    if |us| == 1 then us[0] else Merge(Consolidated(us[..|us| - 1]), us[|us| - 1])
  }

  // ---- The order does not matter ------------------------------------------

  /** What the updates of an account amount to, in unbounded arithmetic. */
  datatype Total = Total(nonce: Option<u128>, credits: Option<nat>, debits: Option<nat>, digests: Option<Digests>)

  function Add(a: Option<nat>, b: Option<u128>): Option<nat> {
    if a.Some? && b.Some? then Some(a.value + b.value) else if b.None? then a else b
  }

  function Plus(t: Total, u: UpdateArgs): Total {
    Total(MaxNonce(t.nonce, u.nonce), Add(t.credits, u.credits), Add(t.debits, u.debits),
          JoinDigests(t.digests, u.digests))
  }

  const NO_UPDATES := Total(None, None, None, None)

  function Totals(us: seq<UpdateArgs>): Total {
    if us == [] then NO_UPDATES else Plus(Totals(us[..|us| - 1]), us[|us| - 1])
  }

  lemma JoinCommutes(a: Option<Digests>, b: Option<Digests>, c: Option<Digests>)
    ensures JoinDigests(JoinDigests(a, b), c) == JoinDigests(JoinDigests(a, c), b)
  {
    if b.Some? && c.Some? {
      var x, y := b.value, c.value;
      assert ExtendAll(x, y) == ExtendAll(y, x);
      if a.Some? {
        assert ExtendAll(ExtendAll(a.value, x), y) == ExtendAll(ExtendAll(a.value, y), x);
      }
    }
  }

  lemma PlusCommutes(t: Total, u: UpdateArgs, v: UpdateArgs)
    ensures Plus(Plus(t, u), v) == Plus(Plus(t, v), u)
  {
    JoinCommutes(t.digests, u.digests, v.digests);
  }

  function Drop(us: seq<UpdateArgs>, i: nat): seq<UpdateArgs>
    requires i < |us|
  {
    us[..i] + us[i + 1..]
  }

  lemma {:induction false} TotalsSplit(us: seq<UpdateArgs>, i: nat)
    requires i < |us|
    ensures Totals(us) == Plus(Totals(Drop(us, i)), us[i])
  {
    var last := |us| - 1;
    if i == last {
      assert Drop(us, i) == us[..last];
    } else {
      TotalsSplit(us[..last], i);
      assert Drop(us, i)[..last - 1] == Drop(us[..last], i);
      assert Drop(us, i)[last - 1] == us[last];
      PlusCommutes(Totals(Drop(us[..last], i)), us[i], us[last]);
    }
  }

  lemma {:induction false} TotalsIgnoreOrder(us: seq<UpdateArgs>, vs: seq<UpdateArgs>)
    requires multiset(us) == multiset(vs)
    ensures Totals(us) == Totals(vs)
    decreases |us|
  {
    if us == [] {
      assert |vs| == |multiset(vs)| == 0;
    } else {
      var last := |us| - 1;
      var u := us[last];
      assert u in multiset(vs);
      var i :| 0 <= i < |vs| && vs[i] == u;
      TotalsSplit(vs, i);
      DropOne(vs, i);
      DropOne(us, last);
      assert Drop(us, last) == us[..last];
      TotalsIgnoreOrder(us[..last], Drop(vs, i));
    }
  }

  lemma DropOne(us: seq<UpdateArgs>, i: nat)
    requires i < |us|
    ensures multiset(Drop(us, i)) == multiset(us) - multiset{us[i]}
  {
    assert us == us[..i] + [us[i]] + us[i + 1..];
  }

  function Wrapped(o: Option<nat>): Option<u128> {
    if o.Some? then Some(o.value % U128) else None
  }

  lemma WrapAdd(x: nat, y: nat)
    ensures (x % U128 + y) % U128 == (x + y) % U128
  {
    var q := x / U128;
    assert x + y == q * U128 + (x % U128 + y);
  }

  lemma AddWraps(a: Option<nat>, b: Option<u128>)
    ensures AddWrapping(Wrapped(a), b) == Wrapped(Add(a, b))
  {
    if a.Some? && b.Some? {
      WrapAdd(a.value, b.value);
    }
  }

  lemma {:induction false} ConsolidatedIsTotal(us: seq<UpdateArgs>)
    requires us != []
    ensures var c, t := Consolidated(us), Totals(us);
            && c.nonce == t.nonce && c.digests == t.digests
            && c.credits == Wrapped(t.credits) && c.debits == Wrapped(t.debits)
  {
    var last := |us| - 1;
    if |us| == 1 {
      assert us[..last] == [];
    } else {
      ConsolidatedIsTotal(us[..last]);
      AddWraps(Totals(us[..last]).credits, us[last].credits);
      AddWraps(Totals(us[..last]).debits, us[last].debits);
    }
  }

  // ---- One at a time ------------------------------------------------------

  /** The updates applied in this order; `None` if one of them fails. */
  function ApplyAll(a: AccountState, us: seq<UpdateArgs>): Option<AccountState> {
    if us == [] then Some(a)
    else
      var before := ApplyAll(a, us[..|us| - 1]);
      if before.None? then None
      else
        var (b, ok) := ApplyUpdate(before.value, us[|us| - 1]);
        if ok then Some(b) else None
  }

  function Amount(o: Option<nat>): nat {
    if o.Some? then o.value else 0
  }

  /** An account whose updates all succeed has gained exactly their total. */
  lemma {:induction false} ApplyAllAddsUp(a: AccountState, us: seq<UpdateArgs>)
    requires ApplyAll(a, us).Some?
    ensures var b, t := ApplyAll(a, us).value, Totals(us);
            && b.credits == a.credits + Amount(t.credits)
            && b.debits == a.debits + Amount(t.debits)
            && (t.debits.Some? ==> b.debits <= b.credits)
            && b.digests == (if t.digests.Some? then ExtendAll(a.digests, t.digests.value) else a.digests)
            && (t.nonce.Some? ==> a.nonce <= t.nonce.value <= b.nonce)
            && a.nonce <= b.nonce
  {
    if us != [] {
      ApplyAllAddsUp(a, us[..|us| - 1]);
    }
  }

  // ---- Code and storage ---------------------------------------------------

  /** One at a time, the last update that carries code, or storage, decides it, and without
      one it stays; what an update carries may be that there is none. */
  lemma {:induction false} LastWriterWins(a: AccountState, us: seq<UpdateArgs>, i: nat)
    requires ApplyAll(a, us).Some?
    ensures i < |us| && us[i].code.Some? && (forall j :: i < j < |us| ==> us[j].code.None?) ==>
              ApplyAll(a, us).value.code == us[i].code.value
    ensures i < |us| && us[i].storage.Some? && (forall j :: i < j < |us| ==> us[j].storage.None?) ==>
              ApplyAll(a, us).value.storage == us[i].storage.value
    ensures (forall u <- us :: u.code.None?) ==> ApplyAll(a, us).value.code == a.code
    ensures (forall u <- us :: u.storage.None?) ==> ApplyAll(a, us).value.storage == a.storage
  {
    if us != [] {
      var last := |us| - 1;
      LastWriterWins(a, us[..last], i);
      assert us[last] in us && forall u <- us[..last] :: u in us;
      assert forall j :: 0 <= j < last ==> us[..last][j] == us[j];
    }
  }

  /** In a batch the update merged last decides both, also if it carries none. */
  lemma LastMergedWins(us: seq<UpdateArgs>)
    requires us != []
    ensures Consolidated(us).code == us[|us| - 1].code && Consolidated(us).storage == us[|us| - 1].storage
    ensures Consolidated(us).address == us[0].address
  {
    FirstAddress(us);
  }

  lemma {:induction false} FirstAddress(us: seq<UpdateArgs>)
    requires us != []
    ensures Consolidated(us).address == us[0].address
  {
    if |us| > 1 {
      FirstAddress(us[..|us| - 1]);
    }
  }

  // ---- Nonces -------------------------------------------------------------

  predicate Stamped(us: seq<UpdateArgs>) {
    us != [] && (us[|us| - 1].nonce.Some? || Stamped(us[..|us| - 1]))
  }

  /** The account's nonce after accepted updates, one at a time. */
  function NonceAfter(current: u128, us: seq<UpdateArgs>): u128 {
    if us == [] then current
    else
      var n, last := NonceAfter(current, us[..|us| - 1]), us[|us| - 1];
      if last.nonce.Some? then NextNonce(n, last.nonce.value) else n
  }

  /** The last update that carries a nonce is the only one, or its nonce is above the
      account's nonce at that point, or that nonce cannot grow any more. */
  predicate LastNonceFresh(current: u128, us: seq<UpdateArgs>) {
    if us == [] then true
    else
      var before, last := us[..|us| - 1], us[|us| - 1];
      if last.nonce.None? then LastNonceFresh(current, before)
      else
        var n := NonceAfter(current, before);
        !Stamped(before) || last.nonce.value > n || n == U128 - 1
  }

  lemma {:induction false} AppliedNonce(a: AccountState, us: seq<UpdateArgs>)
    requires ApplyAll(a, us).Some?
    ensures ApplyAll(a, us).value.nonce == NonceAfter(a.nonce, us)
  {
    if us != [] {
      AppliedNonce(a, us[..|us| - 1]);
    }
  }

  lemma {:induction false} TotalsStamped(us: seq<UpdateArgs>)
    ensures Totals(us).nonce.Some? <==> Stamped(us)
  {
    if us != [] {
      TotalsStamped(us[..|us| - 1]);
    }
  }

  lemma {:induction false} NonceGrows(a: AccountState, us: seq<UpdateArgs>)
    requires ApplyAll(a, us).Some?
    ensures var n := NonceAfter(a.nonce, us);
            if Stamped(us) then n > a.nonce || n == U128 - 1 else n == a.nonce
  {
    if us != [] {
      NonceGrows(a, us[..|us| - 1]);
      AppliedNonce(a, us[..|us| - 1]);
    }
  }

  /** The account went from `first` to `n`, the batch reached `max` and `last` is
      accepted: both take the same next nonce exactly if `last` is fresh. */
  lemma FreshExact(first: u128, n: u128, max: u128, last: u128)
    requires first <= max <= n <= last && (n > first || n == U128 - 1)
    ensures NextNonce(n, last) == NextNonce(first, last) <==> last > n || n == U128 - 1
    ensures MaxNonce(Some(max), Some(last)) == Some(last)
  {
  }

  lemma {:induction false} NonceExact(a: AccountState, us: seq<UpdateArgs>)
    requires ApplyAll(a, us).Some? && Stamped(us)
    ensures Totals(us).nonce.Some?
    ensures NonceAfter(a.nonce, us) == NextNonce(a.nonce, Totals(us).nonce.value) <==> LastNonceFresh(a.nonce, us)
  {
    var before := us[..|us| - 1];
    TotalsStamped(us);
    TotalsStamped(before);
    if us[|us| - 1].nonce.None? {
      NonceExact(a, before);
    } else {
      ApplyAllAddsUp(a, before);
      AppliedNonce(a, before);
      NonceGrows(a, before);
      if Stamped(before) {
        FreshExact(a.nonce, NonceAfter(a.nonce, before), Totals(before).nonce.value, us[|us| - 1].nonce.value);
      }
    }
  }

  // ---- The batch refines the sequence -------------------------------------

  /** If an account's updates, applied one at a time in some order, all succeed, then
      the single update consolidated from them in any order succeeds and gives the
      same credits, debits and digests; it gives the same nonce exactly when the last
      nonce of the sequence was fresh. */
  lemma BatchRefinesSequence(a: AccountState, us: seq<UpdateArgs>, vs: seq<UpdateArgs>)
    requires us != [] && vs != [] && multiset(us) == multiset(vs) && ApplyAll(a, us).Some?
    ensures var (c, ok), b := ApplyUpdate(a, Consolidated(vs)), ApplyAll(a, us).value;
            && ok
            && c.credits == b.credits && c.debits == b.debits && c.digests == b.digests
            && (c.nonce == b.nonce <==> LastNonceFresh(a.nonce, us))
  {
    NothingWraps(a, us, vs);
    ApplyAllAddsUp(a, us);
    AppliedNonce(a, us);
    TotalsStamped(us);
    if Stamped(us) {
      NonceExact(a, us);
    } else {
      UnstampedIsFresh(a.nonce, us);
      NonceGrows(a, us);
    }
    TotalApplies(a, Consolidated(vs), Totals(us));
  }

  /** The sums fit in 128 bits because the account holding them did. */
  lemma NothingWraps(a: AccountState, us: seq<UpdateArgs>, vs: seq<UpdateArgs>)
    requires vs != [] && multiset(us) == multiset(vs) && ApplyAll(a, us).Some?
    ensures var c, t := Consolidated(vs), Totals(us);
            c.nonce == t.nonce && c.credits == t.credits && c.debits == t.debits && c.digests == t.digests
  {
    TotalsIgnoreOrder(us, vs);
    ConsolidatedIsTotal(vs);
    ApplyAllAddsUp(a, us);
    SmallStays(Totals(us).credits);
    SmallStays(Totals(us).debits);
  }

  lemma SmallStays(o: Option<nat>)
    requires Amount(o) < U128
    ensures Wrapped(o) == o
  {
  }

  lemma TotalApplies(a: AccountState, c: UpdateArgs, t: Total)
    requires c.nonce == t.nonce && c.credits == t.credits && c.debits == t.debits && c.digests == t.digests
    requires a.credits + Amount(t.credits) < U128 && a.debits + Amount(t.debits) < U128
    requires t.debits.Some? ==> a.debits + t.debits.value <= a.credits + Amount(t.credits)
    requires t.nonce.Some? ==> a.nonce <= t.nonce.value
    ensures var (b, ok) := ApplyUpdate(a, c);
            && ok && b.credits == a.credits + Amount(t.credits) && b.debits == a.debits + Amount(t.debits)
            && b.digests == (if t.digests.Some? then ExtendAll(a.digests, t.digests.value) else a.digests)
            && b.nonce == (if t.nonce.Some? then NextNonce(a.nonce, t.nonce.value) else a.nonce)
  {
  }

  lemma {:induction false} UnstampedIsFresh(current: u128, us: seq<UpdateArgs>)
    requires !Stamped(us)
    ensures LastNonceFresh(current, us)
  {
    if us != [] {
      UnstampedIsFresh(current, us[..|us| - 1]);
    }
  }

  /** The nonces that are there strictly increase from above the account's own. */
  ghost predicate RisingNonces(current: u128, us: seq<UpdateArgs>) {
    && (forall i :: 0 <= i < |us| && us[i].nonce.Some? ==> us[i].nonce.value > current)
    && (forall i, j | 0 <= i < j < |us| ::
          us[i].nonce.Some? && us[j].nonce.Some? ==> us[i].nonce.value < us[j].nonce.value)
  }

  /** With rising nonces the account's nonce is its own or one of the updates'. */
  lemma {:induction false} RisingStays(current: u128, us: seq<UpdateArgs>)
    requires RisingNonces(current, us)
    ensures var n := NonceAfter(current, us);
            n == current || exists i :: 0 <= i < |us| && us[i].nonce == Some(n)
  {
    if us != [] {
      var before, last := us[..|us| - 1], us[|us| - 1];
      RisingStays(current, before);
      var n := NonceAfter(current, before);
      if n != current {
        var i :| 0 <= i < |before| && before[i].nonce == Some(n);
        assert us[i].nonce == Some(n);
      }
      if last.nonce.Some? {
        RisingIsAbove(current, us, n);
        assert us[|us| - 1].nonce == Some(NonceAfter(current, us));
      }
    }
  }

  lemma RisingIsAbove(current: u128, us: seq<UpdateArgs>, n: u128)
    requires us != [] && RisingNonces(current, us) && us[|us| - 1].nonce.Some?
    requires n == current || exists i :: 0 <= i < |us| - 1 && us[i].nonce == Some(n)
    ensures us[|us| - 1].nonce.value > n && NextNonce(n, us[|us| - 1].nonce.value) == us[|us| - 1].nonce.value
  {
  }

  lemma {:induction false} RisingIsFresh(current: u128, us: seq<UpdateArgs>)
    requires RisingNonces(current, us)
    ensures LastNonceFresh(current, us)
  {
    if us != [] {
      var before := us[..|us| - 1];
      RisingIsFresh(current, before);
      RisingStays(current, before);
      if us[|us| - 1].nonce.Some? {
        var n := NonceAfter(current, before);
        assert forall i :: 0 <= i < |before| ==> before[i] == us[i];
        RisingIsAbove(current, us, n);
      }
    }
  }

  /** What a caller can check beforehand: if the nonces rise strictly above the
      account's, batch and sequence agree on credits, debits, digests and nonce. */
  lemma RisingBatchAgrees(a: AccountState, us: seq<UpdateArgs>, vs: seq<UpdateArgs>)
    requires us != [] && vs != [] && multiset(us) == multiset(vs) && ApplyAll(a, us).Some?
    requires RisingNonces(a.nonce, us)
    ensures var (c, ok), b := ApplyUpdate(a, Consolidated(vs)), ApplyAll(a, us).value;
            ok && c.nonce == b.nonce && c.credits == b.credits && c.debits == b.debits && c.digests == b.digests
  {
    RisingIsFresh(a.nonce, us);
    BatchRefinesSequence(a, us, vs);
  }

  // ---- The converse -------------------------------------------------------

  /** The account can take these sums: it can hold the credits and cover the debits. */
  predicate Fits(a: AccountState, credits: Option<nat>, debits: Option<nat>) {
    && a.credits + Amount(credits) < U128
    && (debits.Some? ==> a.debits + debits.value <= a.credits + Amount(credits))
  }

  /** The batch succeeds exactly if its highest nonce is not below the account's and the
      account can take the sums, wrapped around. */
  lemma BatchSucceedsExactly(a: AccountState, us: seq<UpdateArgs>)
    requires us != []
    ensures var t := Totals(us);
            ApplyUpdate(a, Consolidated(us)).1 <==>
              (t.nonce.Some? ==> a.nonce <= t.nonce.value) && Fits(a, Wrapped(t.credits), Wrapped(t.debits))
  {
    ConsolidatedIsTotal(us);
  }

  ghost predicate Stale(a: AccountState, us: seq<UpdateArgs>) {
    exists u :: u in us && u.nonce.Some? && u.nonce.value < a.nonce
  }

  /** A nonce below the account's, or sums the account cannot take, fail in every order. */
  lemma {:induction false} FailsInAnyOrder(a: AccountState, us: seq<UpdateArgs>)
    requires Stale(a, us) || !Fits(a, Totals(us).credits, Totals(us).debits)
    ensures ApplyAll(a, us).None?
  {
    if ApplyAll(a, us).Some? {
      ApplyAllAddsUp(a, us);
      NoStale(a, us);
    }
  }

  lemma {:induction false} NoStale(a: AccountState, us: seq<UpdateArgs>)
    requires ApplyAll(a, us).Some?
    ensures !Stale(a, us)
  {
    if us != [] {
      var before := us[..|us| - 1];
      NoStale(a, before);
      ApplyAllAddsUp(a, before);
      assert us == before + [us[|us| - 1]];
    }
  }

  /** A stale update rides along: no order of single updates succeeds, while the batch
      does exactly if its highest nonce is fresh and the account can take the sums. */
  lemma StaleRidesAlong(a: AccountState, us: seq<UpdateArgs>, vs: seq<UpdateArgs>)
    requires us != [] && multiset(us) == multiset(vs) && Stale(a, us)
    ensures ApplyAll(a, vs).None?
    ensures var t := Totals(us);
            && t.nonce.Some?
            && (ApplyUpdate(a, Consolidated(us)).1 <==>
                  a.nonce <= t.nonce.value && Fits(a, Wrapped(t.credits), Wrapped(t.debits)))
  {
    var u :| u in us && u.nonce.Some? && u.nonce.value < a.nonce;
    assert u in multiset(vs);
    FailsInAnyOrder(a, vs);
    BatchSucceedsExactly(a, us);
    StampedByOne(us, u);
  }

  lemma {:induction false} StampedByOne(us: seq<UpdateArgs>, u: UpdateArgs)
    requires u in us && u.nonce.Some?
    ensures Totals(us).nonce.Some?
  {
    var before := us[..|us| - 1];
    if us[|us| - 1].nonce.None? {
      assert us == before + [us[|us| - 1]];
      StampedByOne(before, u);
    }
  }

  /** No update that credits comes after one that debits. */
  ghost predicate CreditsFirst(us: seq<UpdateArgs>) {
    forall i, j | 0 <= i < j < |us| :: us[i].debits.Some? ==> us[j].credits.None?
  }

  /** With rising nonces and credits first, single updates succeed exactly if the account
      can take the sums. */
  lemma {:induction false} SequenceSucceedsExactly(a: AccountState, us: seq<UpdateArgs>)
    requires RisingNonces(a.nonce, us) && CreditsFirst(us)
    ensures ApplyAll(a, us).Some? <==> Fits(a, Totals(us).credits, Totals(us).debits)
  {
    if us != [] {
      var before, last := us[..|us| - 1], us[|us| - 1];
      SequenceSucceedsExactly(a, before);
      NoDebitsBefore(us);
      if ApplyAll(a, before).Some? {
        ApplyAllAddsUp(a, before);
        LastNonceAccepted(a, us);
      }
    }
  }

  lemma LastNonceAccepted(a: AccountState, us: seq<UpdateArgs>)
    requires us != [] && RisingNonces(a.nonce, us) && ApplyAll(a, us[..|us| - 1]).Some?
    ensures !NonceRejected(ApplyAll(a, us[..|us| - 1]).value, us[|us| - 1])
  {
    var before := us[..|us| - 1];
    AppliedNonce(a, before);
    RisingStays(a.nonce, before);
    if us[|us| - 1].nonce.Some? {
      assert forall i :: 0 <= i < |before| ==> before[i] == us[i];
      RisingIsAbove(a.nonce, us, NonceAfter(a.nonce, before));
    }
  }

  /** If the last update credits, none before it debits. */
  lemma {:induction false} NoDebitsBefore(us: seq<UpdateArgs>)
    requires us != [] && CreditsFirst(us)
    ensures us[|us| - 1].credits.Some? ==> Totals(us[..|us| - 1]).debits.None?
  {
    if us[|us| - 1].credits.Some? {
      NoDebits(us[..|us| - 1]);
    }
  }

  lemma {:induction false} NoDebits(us: seq<UpdateArgs>)
    requires forall i :: 0 <= i < |us| ==> us[i].debits.None?
    ensures Totals(us).debits.None?
  {
    if us != [] {
      NoDebits(us[..|us| - 1]);
    }
  }

  /** Updates that can be ordered with rising nonces and credits first: some order
      succeeds exactly if the account can take the sums, so the batch succeeds where no
      order does exactly if the sums fit only after wrapping around. */
  lemma ConverseExactly(a: AccountState, us: seq<UpdateArgs>)
    requires us != [] && RisingNonces(a.nonce, us) && CreditsFirst(us)
    ensures var t, some := Totals(us), exists vs :: multiset(vs) == multiset(us) && ApplyAll(a, vs).Some?;
            && (some <==> Fits(a, t.credits, t.debits))
            && (ApplyUpdate(a, Consolidated(us)).1 <==> Fits(a, Wrapped(t.credits), Wrapped(t.debits)))
  {
    var t := Totals(us);
    SequenceSucceedsExactly(a, us);
    BatchSucceedsExactly(a, us);
    RisingTotal(a.nonce, us);
    if vs :| multiset(vs) == multiset(us) && ApplyAll(a, vs).Some? {
      TotalsIgnoreOrder(vs, us);
      ApplyAllAddsUp(a, vs);
    }
  }

  lemma {:induction false} RisingTotal(current: u128, us: seq<UpdateArgs>)
    requires RisingNonces(current, us)
    ensures Totals(us).nonce.Some? ==> current <= Totals(us).nonce.value
  {
    if us != [] {
      RisingTotal(current, us[..|us| - 1]);
    }
  }

  function NonceOnly(n: u128): UpdateArgs {
    UpdateArgs(0, Some(n), None, None, None, None, None)
  }

  /** An account with nonce 3 accepts nonces 1 and 5 in a batch and in no order. */
  lemma StaleExample(vs: seq<UpdateArgs>)
    requires multiset(vs) == multiset([NonceOnly(1), NonceOnly(5)])
    ensures var a := NEW_ACCOUNT.(nonce := 3);
            ApplyAll(a, vs).None? && ApplyUpdate(a, Consolidated([NonceOnly(1), NonceOnly(5)])).1
  {
    var a, us := NEW_ACCOUNT.(nonce := 3), [NonceOnly(1), NonceOnly(5)];
    assert us[0] in us;
    StaleRidesAlong(a, us, vs);
    assert us[..1] == [NonceOnly(1)] && us[..1][..0] == [];
    assert Totals(us[..1]) == Total(Some(1), None, None, None);
  }

  /** Two updates whose nonces repeat the account's current nonce: one at a time the
      nonce grows twice, in one batch only once. */
  lemma RepeatedNonceDiffers(n: u128)
    requires n + 2 < U128
    ensures var a, us := NEW_ACCOUNT.(nonce := n), [NonceOnly(n), NonceOnly(n + 1)];
            && ApplyAll(a, us).Some? && ApplyAll(a, us).value.nonce == n + 2
            && ApplyUpdate(a, Consolidated(us)).0.nonce == n + 1
  {
    var a, us := NEW_ACCOUNT.(nonce := n), [NonceOnly(n), NonceOnly(n + 1)];
    assert us[..1] == [NonceOnly(n)] && us[..1][..0] == [];
    assert ApplyAll(a, us[..1][..0]) == Some(a);
    assert ApplyAll(a, us[..1]) == Some(a.(nonce := n + 1));
    assert Consolidated(us[..1]) == NonceOnly(n);
  }

  // ---- Solvency -----------------------------------------------------------

  predicate Solvent(a: AccountState) {
    a.debits <= a.credits
  }

  /** The account after updates of which some may have failed half-way. */
  function History(a: AccountState, us: seq<UpdateArgs>): AccountState {
    if us == [] then a else ApplyUpdate(History(a, us[..|us| - 1]), us[|us| - 1]).0
  }

  /** No history of updates, successful or not, makes an account spend more than it received. */
  lemma {:induction false} AlwaysSolvent(us: seq<UpdateArgs>)
    ensures Solvent(History(NEW_ACCOUNT, us))
  {
    if us != [] {
      AlwaysSolvent(us[..|us| - 1]);
    }
  }

  // ---- All addresses at once ----------------------------------------------

  /** The updates of one address, in their order. */
  function Of(us: seq<UpdateArgs>, a: Address): seq<UpdateArgs> {
    if us == [] then []
    else
      var before, last := Of(us[..|us| - 1], a), us[|us| - 1];
      if last.address == a then before + [last] else before
  }

  /** `consolidate_update_args`, meeting the updates in the given order. */
  method ConsolidateUpdateArgs(us: seq<UpdateArgs>) returns (m: map<Address, UpdateArgs>)
    ensures forall a :: a in m <==> Of(us, a) != []
    ensures forall a <- m :: m[a] == Consolidated(Of(us, a)) && m[a].address == a
  {
    m := map[];
    for i := 0 to |us|
      invariant forall a :: a in m <==> Of(us[..i], a) != []
      invariant forall a <- m :: m[a] == Consolidated(Of(us[..i], a)) && m[a].address == a
    {
      var u := us[i];
      assert us[..i + 1][..i] == us[..i];
      var before := Of(us[..i], u.address);
      assert (before + [u])[..|before|] == before;
      m := m[u.address := if u.address in m then Merge(m[u.address], u) else u];
    }
    assert us[..|us|] == us;
  }
}
