/** The quorum election (`quorum.rs`) and the miner election (`quorum_module.rs`). */
module QuorumElection {
  import opened Options
  import opened Orders
  import opened Elections
  import Floats

  // ---- The keys of an ordered map in order --------------------------------

  function Ascending(keys: set<U256>): (ks: seq<U256>)
    ensures |ks| == |keys|
    ensures forall i :: 0 <= i < |ks| ==> ks[i] in keys
  {
    if keys == {} then [] else [Least(keys)] + Ascending(keys - {Least(keys)})
  }

  ghost predicate Sorted(ks: seq<U256>) {
    forall i, j :: 0 <= i < j < |ks| ==> Less(ks[i], ks[j])
  }

  lemma {:induction false} AscendingSorted(keys: set<U256>)
    ensures Sorted(Ascending(keys))
    ensures forall k <- keys :: k in Ascending(keys)
  {
    if keys != {} {
      AscendingSorted(keys - {Least(keys)});
    }
  }

  // ---- The final quorum ---------------------------------------------------

  /** How many claims are elected, and how many results there have to be: 51% and 65%
      of the claims as the source computes them, in 32-bit floats. */
  function NumElected(n: nat): nat {
    Floats.CeilOfProduct(n, Floats.C51, Floats.SCALE32, Floats.F32)
  }

  function NumRequired(n: nat): nat {
    Floats.CeilOfProduct(n, Floats.C65, Floats.SCALE32, Floats.F32)
  }

  /** For every number of claims, rounding errors included, no more are elected than
      required and no more are required than there are; up to 257050 claims, and 806596,
      they are the exact percentages rounded up. */
  lemma QuorumSizes(n: nat)
    ensures NumElected(n) <= NumRequired(n) <= n
    ensures n <= 257050 ==> NumElected(n) == (51 * n + 99) / 100
    ensures n <= 806596 ==> NumRequired(n) == (65 * n + 99) / 100
  {
    Floats.CeilGrows(n, Floats.C51, Floats.C65, Floats.SCALE32, Floats.F32);
    Floats.CeilAtMost(n, Floats.C65, Floats.SCALE32, Floats.F32);
    if n <= 257050 {
      Floats.Percent51(n);
    }
    if n <= 806596 {
      Floats.Percent65(n);
    }
  }

  datatype QuorumError = NoSeedError | InvalidPointerSumError

  function PubkeysOf(results: map<U256, Claim>, ks: seq<U256>): (pubkeys: seq<nat>)
    requires forall i :: 0 <= i < |ks| ==> ks[i] in results
    ensures |pubkeys| == |ks|
  {
    if ks == [] then []
    else PubkeysOf(results, ks[..|ks| - 1]) + [results[ks[|ks| - 1]].publicKey]
  }

  /** `values().take(count)`: the public keys of the claims with the lowest results,
      in the order of the results. */
  function Elected(results: map<U256, Claim>, count: nat): seq<nat> {
    var ks := Ascending(results.Keys);
    PubkeysOf(results, if count <= |ks| then ks[..count] else ks)
  }

  class Quorum {
    var seed: Word
    var masterPubkeys: seq<nat>

    /** An election with a seed and enough distinct results always succeeds; the
        slice of the collected keys is in bounds because 51% never exceeds 65%, rounding
        errors included. */
    method GetFinalQuorum(claims: seq<Claim>) returns (error: Option<QuorumError>)
      modifies this`masterPubkeys
      ensures error == Some(NoSeedError) <==> seed == 0
      ensures error == Some(InvalidPointerSumError) <==>
              seed != 0 && |Collect(Ballots(claims, seed))| < NumRequired(|claims|)
      ensures error.Some? ==> masterPubkeys == old(masterPubkeys)
      ensures error.None? ==>
                var results := Collect(Ballots(claims, seed));
                && NumElected(|claims|) <= |results|
                && |masterPubkeys| == NumElected(|claims|)
                && masterPubkeys == Elected(results, NumElected(|claims|))
    {
      if seed == 0 {
        return Some(NoSeedError);
      }
      QuorumSizes(|claims|);
      var numClaims := NumElected(|claims|);
      var results := Collect(Ballots(claims, seed));
      if |results| < NumRequired(|claims|) {
        return Some(InvalidPointerSumError);
      }
      var pubkeys := Elected(results, numClaims);
      masterPubkeys := pubkeys[0..numClaims];
      error := None;
    }
  }

  lemma {:induction false} PubkeyAt(results: map<U256, Claim>, ks: seq<U256>, i: nat)
    requires i < |ks| && forall m :: 0 <= m < |ks| ==> ks[m] in results
    ensures PubkeysOf(results, ks)[i] == results[ks[i]].publicKey
  {
    if i < |ks| - 1 {
      PubkeyAt(results, ks[..|ks| - 1], i);
    }
  }

  /** The elected keys belong to the lowest results: every other result is larger
      than each elected one. */
  lemma ElectedAreLowest(results: map<U256, Claim>, count: nat, i: nat, k: U256)
    requires i < count <= |results| && k in results && k !in Ascending(results.Keys)[..count]
    ensures Less(Ascending(results.Keys)[i], k)
    ensures Elected(results, count)[i] == results[Ascending(results.Keys)[i]].publicKey
  {
    AscendingSorted(results.Keys);
    var ks := Ascending(results.Keys);
    PubkeyAt(results, ks[..count], i);
    var j :| 0 <= j < |ks| && ks[j] == k;
    forall m | 0 <= m < count ensures ks[m] != k {
      assert ks[m] == ks[..count][m];
    }
  }

  /** For claims with distinct hashes the election succeeds whenever there is a seed,
      and the result does not depend on the order in which the claims are listed. */
  lemma FinalQuorumIgnoresOrder(a: seq<Claim>, b: seq<Claim>, seed: Word)
    requires DistinctHashes(a) && DistinctHashes(b) && SameClaims(a, b)
    ensures var ra, rb := Collect(Ballots(a, seed)), Collect(Ballots(b, seed));
            && |a| == |b| == |ra| == |rb|
            && NumElected(|a|) <= NumRequired(|a|) <= |ra|
            && Elected(ra, NumElected(|a|)) == Elected(rb, NumElected(|b|))
  {
    QuorumSizes(|a|);
    ElectionIgnoresOrder(a, b, seed);
    BallotsDistinct(a, seed);
    BallotsDistinct(b, seed);
    CollectDistinct(Ballots(a, seed));
    CollectDistinct(Ballots(b, seed));
  }

  // ---- The miner election -------------------------------------------------

  type NodeId = nat

  /** The Miner-eligible claims in the order in which the hash map is iterated. */
  function EligibleMiners(claims: map<NodeId, Claim>, order: seq<NodeId>): seq<Claim>
    requires forall n <- order :: n in claims
  {
    if order == [] then []
    else
      var last := |order| - 1;
      var before := EligibleMiners(claims, order[..last]);
      if claims[order[last]].eligibility == Miner then before + [claims[order[last]]] else before
  }

  function ElectMiner(claims: map<NodeId, Claim>, order: seq<NodeId>, seed: Word): map<U256, Claim>
    requires forall n <- order :: n in claims
  {
    Collect(Ballots(EligibleMiners(claims, order), seed))
  }

  /** The first entry of the results; on an empty map the source loops for ever. */
  function GetWinner(results: map<U256, Claim>): Option<(U256, Claim)> {
    if results == map[] then None else Some((Least(results.Keys), results[Least(results.Keys)]))
  }

  ghost predicate DistinctMinerHashes(claims: map<NodeId, Claim>) {
    forall m, n | m in claims && n in claims && m != n ::
      claims[m].eligibility == Miner && claims[n].eligibility == Miner ==> claims[m].hash != claims[n].hash
  }

  lemma {:induction false} EligibleExactly(claims: map<NodeId, Claim>, order: seq<NodeId>, c: Claim)
    requires forall n <- order :: n in claims
    ensures c in EligibleMiners(claims, order) <==>
            c.eligibility == Miner && exists n :: n in order && claims[n] == c
  {
    if order != [] {
      var last := |order| - 1;
      EligibleExactly(claims, order[..last], c);
      assert order == order[..last] + [order[last]];
    }
  }

  lemma {:induction false} EligibleDistinct(claims: map<NodeId, Claim>, order: seq<NodeId>)
    requires DistinctMinerHashes(claims) && forall n <- order :: n in claims
    requires NoDuplicates(order)
    ensures DistinctHashes(EligibleMiners(claims, order))
  {
    if order != [] {
      var last := |order| - 1;
      var before := EligibleMiners(claims, order[..last]);
      EligibleDistinct(claims, order[..last]);
      forall i | 0 <= i < |before| && claims[order[last]].eligibility == Miner
        ensures before[i].hash != claims[order[last]].hash
      {
        EligibleExactly(claims, order[..last], before[i]);
      }
    }
  }

  /** Miner election agreement: `get_winner` ends exactly when some claim is
      Miner-eligible; the winner is an eligible claim whose result no eligible claim
      undercuts; its result never depends on the iteration order of the claim map,
      and for distinct hashes the winning claim does not either. */
  lemma MinerElectionAgrees(claims: map<NodeId, Claim>, a: seq<NodeId>, b: seq<NodeId>, seed: Word)
    requires Enumerates(a, claims.Keys) && Enumerates(b, claims.Keys)
    ensures var wa, wb := GetWinner(ElectMiner(claims, a, seed)), GetWinner(ElectMiner(claims, b, seed));
            && (wa.Some? <==> wb.Some?)
            && (wa.Some? <==> exists n :: n in claims && claims[n].eligibility == Miner)
            && (wa.Some? ==> wa.value.0 == wb.value.0 && wa.value.0 == Xor(wa.value.1.hash, seed))
            && (wa.Some? ==> wa.value.1.eligibility == Miner && wa.value.1 in claims.Values)
            && (wa.Some? ==> forall n <- claims :: claims[n].eligibility == Miner ==>
                  !Less(Xor(claims[n].hash, seed), wa.value.0))
            && (DistinctMinerHashes(claims) ==> wa == wb)
  {
    var ea, eb := EligibleMiners(claims, a), EligibleMiners(claims, b);
    forall c ensures c in ea <==> c in eb {
      EligibleExactly(claims, a, c);
      EligibleExactly(claims, b, c);
    }
    ElectionIgnoresOrder(ea, eb, seed);
    if DistinctMinerHashes(claims) {
      EligibleDistinct(claims, a);
      EligibleDistinct(claims, b);
    }
    WinnerIsLowest(claims, a, seed);
  }

  lemma WinnerIsLowest(claims: map<NodeId, Claim>, order: seq<NodeId>, seed: Word)
    requires Enumerates(order, claims.Keys)
    ensures var w := GetWinner(ElectMiner(claims, order, seed));
            && (w.Some? <==> exists n :: n in claims && claims[n].eligibility == Miner)
            && (w.Some? ==> w.value.0 == Xor(w.value.1.hash, seed))
            && (w.Some? ==> w.value.1.eligibility == Miner && w.value.1 in claims.Values)
            && (w.Some? ==> forall n <- claims :: claims[n].eligibility == Miner ==>
                  !Less(Xor(claims[n].hash, seed), w.value.0))
  {
    var e := EligibleMiners(claims, order);
    var results := Collect(Ballots(e, seed));
    CollectFaithful(Ballots(e, seed));
    forall n <- claims | claims[n].eligibility == Miner
      ensures Xor(claims[n].hash, seed) in results
    {
      EligibleExactly(claims, order, claims[n]);
      BallotsHaveClaims(e, seed, (Xor(claims[n].hash, seed), claims[n]));
    }
    if results != map[] {
      var k := Least(results.Keys);
      BallotsHaveClaims(e, seed, (k, results[k]));
      EligibleExactly(claims, order, results[k]);
    }
  }
}
