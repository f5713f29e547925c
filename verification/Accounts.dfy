/** Accounts and their updates (`account.rs`), and the consolidation of many updates
    of one account into a single one (`state_manager/utils.rs`). */
module Accounts {
  import opened Options
  import opened Blocks

  datatype Digests = Digests(sent: set<Digest>, recv: set<Digest>, stake: set<Digest>)

  const NO_DIGESTS := Digests({}, {}, {})

  function ExtendAll(a: Digests, b: Digests): Digests {
    Digests(a.sent + b.sent, a.recv + b.recv, a.stake + b.stake)
  }

  datatype UpdateArgs = UpdateArgs(
    address: Address, nonce: Option<u128>, credits: Option<u128>, debits: Option<u128>,
    storage: Option<Option<nat>>, code: Option<Option<nat>>, digests: Option<Digests>)

  datatype AccountState = AccountState(
    nonce: u128, credits: u128, debits: u128, storage: Option<nat>, code: Option<nat>, digests: Digests)

  const NEW_ACCOUNT := AccountState(0, 0, 0, None, None, NO_DIGESTS)

  // ---- One update ---------------------------------------------------------

  /** The nonce an accepted nonce leads to; the increment wraps. */
  function NextNonce(current: u128, nonce: u128): u128 {
    var bumped := (current + 1) % U128;
    if nonce > bumped then nonce else bumped
  }

  predicate NonceRejected(a: AccountState, args: UpdateArgs) {
    args.nonce.Some? && args.nonce.value < a.nonce
  }

  predicate CreditsRejected(a: AccountState, args: UpdateArgs) {
    args.credits.Some? && a.credits + args.credits.value >= U128
  }

  function Credited(a: AccountState, args: UpdateArgs): u128
    requires !CreditsRejected(a, args)
  {
    if args.credits.Some? then a.credits + args.credits.value else a.credits
  }

  predicate DebitsRejected(a: AccountState, args: UpdateArgs)
    requires !CreditsRejected(a, args)
  {
    && args.debits.Some?
    && (a.debits + args.debits.value >= U128 || Credited(a, args) < a.debits + args.debits.value)
  }

  /** `Account::update`: the new state and whether it succeeded.  A failing update
      leaves behind what it changed before the failure. */
  function ApplyUpdate(a: AccountState, args: UpdateArgs): (AccountState, bool) {
    if NonceRejected(a, args) then (a, false)
    else
      var a1 := if args.nonce.Some? then a.(nonce := NextNonce(a.nonce, args.nonce.value)) else a;
      if CreditsRejected(a, args) then (a1, false)
      else
        var a2 := a1.(credits := Credited(a, args));
        if DebitsRejected(a, args) then (a2, false)
        else
          (a2.(debits := if args.debits.Some? then a.debits + args.debits.value else a.debits,
               code := if args.code.Some? then args.code.value else a.code,
               storage := if args.storage.Some? then args.storage.value else a.storage,
               digests := if args.digests.Some? then ExtendAll(a.digests, args.digests.value) else a.digests), true)
  }

  /** What a failing update leaves behind: a stale nonce changes nothing, credits that
      overflow only let the nonce move, and debits that are not covered let the nonce
      move and the credits in; everything else stays. */
  lemma FailureLeaves(a: AccountState, args: UpdateArgs)
    ensures var (b, ok) := ApplyUpdate(a, args);
            !ok ==>
              var stale := args.nonce.Some? && args.nonce.value < a.nonce;
              var overflows := args.credits.Some? && a.credits + args.credits.value >= U128;
              && b == a.(nonce := b.nonce, credits := b.credits)
              && (stale || args.nonce.None? ==> b.nonce == a.nonce)
              && (!stale && args.nonce.Some? ==> b.nonce > a.nonce || a.nonce == U128 - 1)
              && (stale || overflows || args.credits.None? ==> b.credits == a.credits)
              && (!stale && !overflows && args.credits.Some? ==> b.credits == a.credits + args.credits.value)
              && (!stale && !overflows ==> args.debits.Some? && a.debits + args.debits.value > b.credits)
  {
  }

  datatype AccountField =
    | Credits(amount: u128)
    | Debits(amount: u128)
    | Storage(value: Option<nat>)
    | Code(value: Option<nat>)
    | AllDigests(digests: Digests)

  class Account {
    var nonce: u128
    var credits: u128
    var debits: u128
    var storage: Option<nat>
    var code: Option<nat>
    var digests: Digests

    function State(): AccountState
      reads this
    {
      AccountState(nonce, credits, debits, storage, code, digests)
    }

    constructor ()
      ensures State() == NEW_ACCOUNT
    {
      nonce, credits, debits, storage, code, digests := 0, 0, 0, None, None, NO_DIGESTS;
    }

    method UpdateField(field: AccountField) returns (ok: bool)
      modifies this
      ensures ok <==> match field
                      case Credits(c) => old(credits) + c < U128
                      case Debits(d) => old(debits) + d < U128 && old(debits) + d <= credits
                      case _ => true
      ensures !ok ==> State() == old(State())
      ensures ok ==> State() == match field
                                case Credits(c) => old(State()).(credits := old(credits) + c)
                                case Debits(d) => old(State()).(debits := old(debits) + d)
                                case Storage(v) => old(State()).(storage := v)
                                case Code(v) => old(State()).(code := v)
                                case AllDigests(ds) => old(State()).(digests := ExtendAll(old(digests), ds))
    {
      match field {
        case Credits(c) =>
          if credits + c >= U128 {
            return false;
          }
          credits := credits + c;
        case Debits(d) =>
          if debits + d >= U128 || credits < debits + d {
            return false;
          }
          debits := debits + d;
        case Storage(v) => storage := v;
        case Code(v) => code := v;
        case AllDigests(ds) => digests := ExtendAll(digests, ds);
      }
      ok := true;
    }

    method Update(args: UpdateArgs) returns (ok: bool)
      modifies this
      ensures (State(), ok) == ApplyUpdate(old(State()), args)
    {
      if args.nonce.Some? {
        if args.nonce.value < nonce {
          return false;
        } else if args.nonce.value > (nonce + 1) % U128 {
          nonce := args.nonce.value;
        } else {
          nonce := (nonce + 1) % U128;
        }
      }
      if args.credits.Some? {
        ok := UpdateField(Credits(args.credits.value));
        if !ok { return; }
      }
      if args.debits.Some? {
        ok := UpdateField(Debits(args.debits.value));
        if !ok { return; }
      }
      if args.code.Some? {
        ok := UpdateField(Code(args.code.value));
      }
      if args.storage.Some? {
        ok := UpdateField(Storage(args.storage.value));
      }
      if args.digests.Some? {
        ok := UpdateField(AllDigests(args.digests.value));
      }
      ok := true;
    }
  }
}
