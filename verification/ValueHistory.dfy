/** The versioned value history of the RocksDB adapter (`rocksdb_adapter.rs`), against
    a plain map from versions to values. */
module ValueHistory {
  import opened Options

  type Key = nat
  type Version = nat
  type Value = nat

  datatype Entry = Entry(version: Version, value: Option<Value>)

  type History = map<Key, seq<Entry>>

  datatype Put = Put(version: Version, key: Key, value: Option<Value>)

  // ---- The adapter --------------------------------------------------------

  /** `put_value` on one key's vector; `None` for a version that is too old. */
  function PutEntry(entries: seq<Entry>, version: Version, value: Option<Value>): Option<seq<Entry>> {
    if entries == [] then Some([Entry(version, value)])
    else
      var last := |entries| - 1;
      if version < entries[last].version then None
      else if version == entries[last].version then Some(entries[last := Entry(version, value)])
      else Some(entries + [Entry(version, value)])
  }

  function EntriesOf(h: History, k: Key): seq<Entry> {
    if k in h then h[k] else []
  }

  function PutValue(h: History, p: Put): Option<History> {
    var r := PutEntry(EntriesOf(h, p.key), p.version, p.value);
    if r.None? then None else Some(h[p.key := r.value])
  }

  /** The value of the last entry not newer than `max`; a missing one and a deletion are both `None`. */
  function Lookup(entries: seq<Entry>, max: Version): Option<Value> {
    if entries == [] then None
    else
      var last := |entries| - 1;
      if entries[last].version <= max then entries[last].value else Lookup(entries[..last], max)
  }

  class RocksDbAdapter {
    var history: History
    ghost var puts: seq<Put>

    ghost predicate Valid()
      reads this
    {
      history == Run(puts)
    }

    constructor ()
      ensures Valid() && puts == []
    {
      history, puts := map[], [];
    }

    method Store(p: Put) returns (ok: bool)
      requires Valid()
      modifies this
      ensures Valid() && puts == old(puts) + [p]
      ensures ok <==> PutValue(old(history), p).Some?
      ensures ok <==> Acceptable(old(puts), p)
      ensures history == if ok then PutValue(old(history), p).value else old(history)
    {
      AcceptedExactly(puts, p);
      puts := puts + [p];
      assert puts[..|puts| - 1] == old(puts);
      if p.key in history {
        var entries := history[p.key];
        if entries != [] {
          var last := |entries| - 1;
          if p.version < entries[last].version {
            return false;
          } else if p.version == entries[last].version {
            history := history[p.key := entries[last := Entry(p.version, p.value)]];
            return true;
          }
        }
        assert entries == [] ==> entries + [Entry(p.version, p.value)] == [Entry(p.version, p.value)];
        history := history[p.key := entries + [Entry(p.version, p.value)]];
      } else {
        history := history[p.key := [Entry(p.version, p.value)]];
      }
      ok := true;
    }

    method GetValueOption(max: Version, k: Key) returns (r: Option<Value>)
      requires Valid()
      ensures NoneUpTo(ReferenceRun(puts, k), max) ==> r == None
      ensures forall v :: GreatestUpTo(ReferenceRun(puts, k), max, v) ==> r == ReferenceRun(puts, k)[v]
    {
      HistoryAgreesWithMap(puts, k, max);
      if k !in history {
        return None;
      }
      var entries := history[k];
      var i := |entries|;
      assert entries[..i] == entries;
      while i > 0
        invariant 0 <= i <= |entries|
        invariant Lookup(entries, max) == Lookup(entries[..i], max)
      {
        i := i - 1;
        assert entries[..i + 1][..i] == entries[..i];
        if entries[i].version <= max {
          return entries[i].value;
        }
      }
      r := None;
    }

    /** One put of a batch, recorded as accepted or not. */
    method TryPut(p: Put) returns (ok: bool)
      requires Valid()
      modifies this
      ensures Valid() && puts == old(puts) + [p] && Outcomes(puts) == Outcomes(old(puts)) + [ok]
    {
      ok := Store(p);
      assert puts[..|puts| - 1] == old(puts);
    }

    /** The value loop of `write_node_batch`: the puts are tried one by one, all of the batch
        if each is accepted, else up to the first that is rejected. */
    method WriteValues(batch: seq<Put>) returns (ok: bool, n: nat)
      requires Valid()
      modifies this
      ensures Valid() && n <= |batch| && puts == old(puts) + batch[..n]
      ensures if ok then n == |batch| && Outcomes(puts) == Outcomes(old(puts)) + Accepted(n)
              else n > 0 && Outcomes(puts) == Outcomes(old(puts)) + (Accepted(n - 1) + [false])
    {
      ghost var start, before := puts, Outcomes(puts);
      n := 0;
      while n < |batch|
        invariant n <= |batch| && Valid() && puts == start + batch[..n] && Outcomes(puts) == before + Accepted(n)
      {
        MoreTried(start, batch, n);
        MoreAccepted(before, n);
        ok := TryPut(batch[n]);
        n := n + 1;
        if !ok {
          return;
        }
      }
      ok := true;
    }
  }

  lemma MoreTried(start: seq<Put>, batch: seq<Put>, n: nat)
    requires n < |batch|
    ensures start + batch[..n] + [batch[n]] == start + batch[..n + 1]
  {
  }

  lemma MoreAccepted(before: seq<bool>, n: nat)
    ensures before + Accepted(n) + [true] == before + Accepted(n + 1)
    ensures before + Accepted(n) + [false] == before + (Accepted(n) + [false])
  {
  }

  /** As many accepted puts. */
  function Accepted(n: nat): seq<bool> {
    if n == 0 then [] else Accepted(n - 1) + [true]
  }

  // ---- The reference: a map from versions to values -----------------------

  type Reference = map<Version, Option<Value>>

  /** A put is accepted unless a newer version of the key was accepted before. */
  predicate Fresh(r: Reference, version: Version) {
    forall v <- r :: v <= version
  }

  /** What one key has stored after a run of puts, of which the stale ones were rejected. */
  function ReferenceRun(puts: seq<Put>, k: Key): Reference {
    if puts == [] then map[]
    else
      var before, p := ReferenceRun(puts[..|puts| - 1], k), puts[|puts| - 1];
      if p.key == k && Fresh(before, p.version) then before[p.version := p.value] else before
  }

  /** The adapter after a run of puts, each accepted or rejected. */
  function Run(puts: seq<Put>): History {
    if puts == [] then map[]
    else
      var before := Run(puts[..|puts| - 1]);
      var after := PutValue(before, puts[|puts| - 1]);
      if after.Some? then after.value else before
  }

  ghost predicate Increasing(entries: seq<Entry>) {
    forall i, j :: 0 <= i < j < |entries| ==> entries[i].version < entries[j].version
  }

  function ToMap(entries: seq<Entry>): Reference {
    if entries == [] then map[]
    else var last := |entries| - 1; ToMap(entries[..last])[entries[last].version := entries[last].value]
  }

  ghost predicate Represents(entries: seq<Entry>, r: Reference) {
    Increasing(entries) && r == ToMap(entries)
  }

  lemma {:induction false} NewestVersion(entries: seq<Entry>)
    requires Increasing(entries) && entries != []
    ensures var newest := entries[|entries| - 1].version;
            newest in ToMap(entries) && forall v <- ToMap(entries) :: v <= newest
  {
    var before := entries[..|entries| - 1];
    if before != [] {
      NewestVersion(before);
    }
  }

  lemma PutRepresents(entries: seq<Entry>, version: Version, value: Option<Value>)
    requires Increasing(entries)
    ensures var put := PutEntry(entries, version, value);
            && (put.Some? <==> Fresh(ToMap(entries), version))
            && (put.Some? ==> Represents(put.value, ToMap(entries)[version := value]))
  {
    if entries == [] {
      Appended(entries, version, value);
    } else {
      NewestVersion(entries);
      if version > entries[|entries| - 1].version {
        Appended(entries, version, value);
      } else if version == entries[|entries| - 1].version {
        Replaced(entries, value);
      }
    }
  }

  lemma Replaced(entries: seq<Entry>, value: Option<Value>)
    requires Increasing(entries) && entries != []
    ensures var last := |entries| - 1;
            var entry := Entry(entries[last].version, value);
            Represents(entries[last := entry], ToMap(entries)[entry.version := value])
  {
    var last := |entries| - 1;
    var entry := Entry(entries[last].version, value);
    Appended(entries[..last], entry.version, value);
    assert entries[last := entry] == entries[..last] + [entry];
  }

  lemma Appended(entries: seq<Entry>, version: Version, value: Option<Value>)
    requires Increasing(entries) && forall e <- entries :: e.version < version
    ensures Represents(entries + [Entry(version, value)], ToMap(entries)[version := value])
  {
    assert (entries + [Entry(version, value)])[..|entries|] == entries;
  }

  lemma {:induction false} RunRepresents(puts: seq<Put>, k: Key)
    ensures Represents(EntriesOf(Run(puts), k), ReferenceRun(puts, k))
  {
    if puts != [] {
      var before, p := puts[..|puts| - 1], puts[|puts| - 1];
      RunRepresents(before, k);
      if p.key == k {
        PutRepresents(EntriesOf(Run(before), k), p.version, p.value);
      }
    }
  }

  /** After these puts no newer version of the key has been accepted. */
  ghost predicate Acceptable(puts: seq<Put>, p: Put) {
    Fresh(ReferenceRun(puts, p.key), p.version)
  }

  /** Which puts of a run are accepted. */
  ghost function Outcomes(puts: seq<Put>): (r: seq<bool>)
    ensures |r| == |puts|
  {
    if puts == [] then []
    else
      var last := |puts| - 1;
      Outcomes(puts[..last]) + [Acceptable(puts[..last], puts[last])]
  }

  lemma {:induction false} OutcomeExactly(puts: seq<Put>, i: nat)
    requires i < |puts|
    ensures Outcomes(puts)[i] <==> Acceptable(puts[..i], puts[i])
  {
    var last := |puts| - 1;
    if i < last {
      OutcomeExactly(puts[..last], i);
      assert puts[..last][..i] == puts[..i];
    }
  }

  lemma AcceptedExactly(puts: seq<Put>, p: Put)
    ensures PutValue(Run(puts), p).Some? <==> Acceptable(puts, p)
  {
    RunRepresents(puts, p.key);
    PutRepresents(EntriesOf(Run(puts), p.key), p.version, p.value);
  }

  /** `v` is the greatest version not above `max`. */
  ghost predicate GreatestUpTo(r: Reference, max: Version, v: Version) {
    v in r && v <= max && forall w <- r :: w <= v || w > max
  }

  ghost predicate NoneUpTo(r: Reference, max: Version) {
    forall v <- r :: v > max
  }

  lemma {:induction false} LookupFindsGreatest(entries: seq<Entry>, max: Version)
    requires Increasing(entries)
    ensures var r, got := ToMap(entries), Lookup(entries, max);
            && (NoneUpTo(r, max) ==> got == None)
            && (forall v :: GreatestUpTo(r, max, v) ==> got == r[v])
  {
    if entries != [] {
      NewestVersion(entries);
      var before, last := entries[..|entries| - 1], entries[|entries| - 1];
      LookupFindsGreatest(before, max);
      assert forall w <- ToMap(before) :: w in ToMap(entries);
      if last.version > max {
        forall v | GreatestUpTo(ToMap(entries), max, v) ensures GreatestUpTo(ToMap(before), max, v) {
          assert v != last.version;
        }
      }
    }
  }

  /** After any run of puts, accepted or rejected, each key's versions are strictly
      increasing, and a lookup returns what was last written at the greatest version
      not above the given one, deletions included, and nothing if there is none. */
  lemma HistoryAgreesWithMap(puts: seq<Put>, k: Key, max: Version)
    ensures Increasing(EntriesOf(Run(puts), k))
    ensures var r, got := ReferenceRun(puts, k), Lookup(EntriesOf(Run(puts), k), max);
            && (NoneUpTo(r, max) ==> got == None)
            && (forall v :: GreatestUpTo(r, max, v) ==> got == r[v])
  {
    RunRepresents(puts, k);
    LookupFindsGreatest(EntriesOf(Run(puts), k), max);
    assert ReferenceRun(puts, k) == ToMap(EntriesOf(Run(puts), k));
  }
}
